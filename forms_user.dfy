/** The field rules of `EditProfileForm`, `UploadAvatarForm`,
    `ChangePasswordForm`, `ChangeEmailForm` and `DeleteAccountForm`, and the
    data of the two settings forms. */
module FormsUser {
  import opened Text
  import opened Models
  import opened Validators

  datatype EditProfileInput = EditProfileInput(name: string, username: string, website: string, location: string, bio: string)

  /** `validate_username`: a taken username is refused unless it is the
      current user's own. */
  predicate EditProfileUsername(username: string, current: string, users: map<UserId, User>)
  {
    FieldValid([DataRequired, Length(1, 20), AlnumRegexp,
                Outcome(!(username != current && UsernameInUse(users, username)))], username)
  }

  predicate EditProfileValid(f: EditProfileInput, current: string, users: map<UserId, User>, isUrl: string -> bool)
  {
    && FieldValid([DataRequired, Length(1, 30)], f.name)
    && EditProfileUsername(f.username, current, users)
    && FieldValid([Optional, Outcome(isUrl(f.website)), Length(0, 255)], f.website)
    && FieldValid([Optional, Length(0, 50)], f.location)
    && FieldValid([Optional, Length(0, 120)], f.bio)
  }

  /** The username follows the registration rule, except that the current
      user's own username is never counted as taken. */
  lemma EditProfileUsernameRule(username: string, current: string, users: map<UserId, User>)
    ensures EditProfileUsername(username, current, users) <==>
      && 1 <= |username| <= 20 && AlnumRegexpMatch(username) && username != "\n"
      && (username == current || !UsernameInUse(users, username))
  {
    Chain4(DataRequired, Length(1, 20), AlnumRegexp,
           Outcome(!(username != current && UsernameInUse(users, username))), username);
    if AlnumRegexpMatch(username) && 1 <= |username| && username != "\n" {
      assert !IsSpace(username[0]);
    }
  }

  /** Keeping one's own username passes the uniqueness check; another
      user's username is refused. */
  lemma EditProfileOwnUsername(current: string, users: map<UserId, User>, other: UserId)
    requires other in users && users[other].username != current
    ensures (1 <= |current| <= 20 && AlnumRegexpMatch(current) && current != "\n") ==>
      EditProfileUsername(current, current, users)
    ensures !EditProfileUsername(users[other].username, current, users)
  {
    EditProfileUsernameRule(current, current, users);
    EditProfileUsernameRule(users[other].username, current, users);
  }

  /** Website, location and bio may be left blank; otherwise they are at most
      255, 50 and 120 characters, and the website must pass `URL()`. */
  lemma EditProfileOptionalFields(f: EditProfileInput, current: string, users: map<UserId, User>, isUrl: string -> bool)
    ensures EditProfileValid(f, current, users, isUrl) <==>
      && 1 <= |f.name| <= 30 && !Blank(f.name)
      && EditProfileUsername(f.username, current, users)
      && (Blank(f.website) || (isUrl(f.website) && |f.website| <= 255))
      && (Blank(f.location) || |f.location| <= 50)
      && (Blank(f.bio) || |f.bio| <= 120)
  {
    Chain2(DataRequired, Length(1, 30), f.name);
    OptionalChain2(Outcome(isUrl(f.website)), Length(0, 255), f.website);
    OptionalChain1(Length(0, 50), f.location);
    OptionalChain1(Length(0, 120), f.bio);
  }

  /** `FileRequired` then `FileAllowed(['jpg', 'png '])`: a file name is
      needed, and its lower-cased form must end in '.jpg' or '.png '. */
  predicate AvatarAllowed(filename: string)
  {
    filename != [] && (EndsWith(Lower(filename), ".jpg") || EndsWith(Lower(filename), ".png "))
  }

  /** The input that shows it: a '.png' upload is refused, because the
      allowed-extension list spells the second entry 'png ' with a space. */
  lemma AvatarRefusesPng()
    ensures !AvatarAllowed("a.png")
    ensures AvatarAllowed("a.jpg") && AvatarAllowed("a.PNG ")
  {
    assert Lower("a.png") == "a.png";
    assert Lower("a.jpg") == "a.jpg";
    assert Lower("a.PNG ") == "a.png ";
  }

  /** The evidently intended list ['jpg', 'png']. */
  predicate AvatarAllowedFixed(filename: string)
  {
    filename != [] && (EndsWith(Lower(filename), ".jpg") || EndsWith(Lower(filename), ".png"))
  }

  lemma LowerEndsWith(stem: string, ext: string)
    ensures EndsWith(Lower(stem + ext), Lower(ext))
  {
    LowerAppend(stem, ext);
    assert (Lower(stem) + Lower(ext))[|Lower(stem)|..] == Lower(ext);
  }

  /** With the intended list every '.png' and '.jpg' name is accepted, in
      either case; the list as written refuses every '.png' name. */
  lemma AvatarAllowedFixedRule(stem: string, ext: string)
    requires ext in [".jpg", ".png", ".JPG", ".PNG"]
    ensures AvatarAllowedFixed(stem + ext)
    ensures ext == ".png" || ext == ".PNG" ==> !AvatarAllowed(stem + ext)
  {
    LowerEndsWith(stem, ext);
    var low := Lower(stem + ext);
    assert Lower(ext) == ".png" || Lower(ext) == ".jpg" by {
      LowerAt(ext, 0); LowerAt(ext, 1); LowerAt(ext, 2); LowerAt(ext, 3);
    }
    if Lower(ext) == ".png" {
      assert low[|low| - 1] == 'g';
      assert !EndsWith(low, ".png ");
    }
  }

  datatype ChangePasswordInput = ChangePasswordInput(oldPassword: string, password: string, password2: string)

  predicate ChangePasswordValid(f: ChangePasswordInput)
  {
    && FieldValid([DataRequired, Length(8, 128)], f.oldPassword)
    && FieldValid([DataRequired, Length(8, 128), EqualTo(f.password2)], f.password)
    && FieldValid([DataRequired], f.password2)
  }

  /** The old and the new password are 8 to 128 characters, not all
      whitespace, and the new one is repeated exactly. */
  lemma ChangePasswordRule(f: ChangePasswordInput)
    ensures ChangePasswordValid(f) <==>
      && 8 <= |f.oldPassword| <= 128 && !Blank(f.oldPassword)
      && 8 <= |f.password| <= 128 && !Blank(f.password) && f.password == f.password2
  {
    Chain2(DataRequired, Length(8, 128), f.oldPassword);
    Chain3(DataRequired, Length(8, 128), EqualTo(f.password2), f.password);
    Chain1(DataRequired, f.password2);
  }

  /** `ChangeEmailForm`: `validate_email` looks the lower-cased input up. */
  predicate ChangeEmailValid(email: string, users: map<UserId, User>, isEmail: string -> bool)
  {
    FieldValid([DataRequired, Length(1, 254), Outcome(isEmail(email)), Outcome(!EmailInUse(users, Lower(email)))], email)
  }

  lemma ChangeEmailRule(email: string, users: map<UserId, User>, isEmail: string -> bool)
    ensures ChangeEmailValid(email, users, isEmail) <==>
      1 <= |email| <= 254 && !Blank(email) && isEmail(email) && !EmailInUse(users, Lower(email))
  {
    EmailChain(email, isEmail(email), !EmailInUse(users, Lower(email)));
  }

  lemma EmailChain(email: string, wellFormed: bool, unused: bool)
    ensures FieldValid([DataRequired, Length(1, 254), Outcome(wellFormed), Outcome(unused)], email) <==>
      1 <= |email| <= 254 && !Blank(email) && wellFormed && unused
  {
    Chain4(DataRequired, Length(1, 254), Outcome(wellFormed), Outcome(unused), email);
  }

  /** `DeleteAccountForm`: the typed username must be the current one, exactly. */
  predicate DeleteAccountValid(username: string, current: string)
  {
    FieldValid([DataRequired, Length(1, 20), Outcome(username == current)], username)
  }

  /** With a well-formed current username, the form validates iff the typed
      username equals it. */
  lemma DeleteAccountRule(username: string, current: string)
    requires 1 <= |current| <= 20 && !Blank(current)
    ensures DeleteAccountValid(username, current) <==> username == current
  {
    Chain3(DataRequired, Length(1, 20), Outcome(username == current), username);
  }

  datatype NotificationSettingInput = NotificationSettingInput(
    receiveCommentNotification: bool, receiveFollowNotification: bool, receiveCollectNotification: bool)

  datatype PrivacySettingInput = PrivacySettingInput(publicCollections: bool)
}
