/** What a view function hands back to Flask, and who is asking.  URLs built
    with `url_for` are kept as the endpoint and arguments they name. */
module Http {
  import opened Base

  /** `current_user`: the anonymous `Guest` or a logged-in user's id. */
  datatype Principal = Guest | Member(id: nat)

  /** The endpoints the modelled views redirect to or link to. */
  datatype Endpoint =
    | MainIndex                                   // main.index
    | Login                                       // auth.login, Flask-Login's login view
    | ShowPhoto(photoId: nat, page: Option<int>)  // main.show_photo
    | UserIndex(username: string)                 // user.index
    | ShowNotifications                           // main.show_notifications
    | NotificationSetting                         // user.notification_setting
    | PrivacySetting                              // user.privacy_setting
    | Target(url: string)                         // a raw URL taken from the request

  /** The templates the modelled views render. */
  datatype Page =
    | UserIndexPage(userId: nat)
    | EditProfilePage
    | NotificationSettingPage
    | PrivacySettingPage

  datatype JsonBody = Message(text: string) | Count(n: int)

  datatype Response =
    | Redirect(to: Endpoint)
    | Render(page: Page)
    | Abort(code: int)                    // abort(403), get_or_404 and first_or_404
    | Json(body: JsonBody, status: int)   // jsonify(...), status
    | ServerError(fault: Fault)           // an exception escaped the view: HTTP 500
}
