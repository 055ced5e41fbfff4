/** The photo, collect and notification views of the `main` blueprint:
    `edit_description`, `set_comment`, `report_photo`, `collect`,
    `uncollect`, `delete_photo`, `photo_next`, `photo_previous`,
    `read_notification`, `read_all_notification` and the feed of `index`.
    Each view is a specification function from the tables before the request
    to the response and the tables after it, and a method on the database
    proved to follow it. */
module MainViews {
  import opened Base
  import opened Http
  import opened Models
  import opened Decorators
  import opened Notifications
  import opened FormsMain

  // ---------------------------------------------------------------- ownership

  /** The check at the top of the photo-editing views: `get_or_404`, then
      403 unless the current user is the photo's author or can MODERATE. */
  function OwnerGate(t: Tables, cu: Principal, photoId: PhotoId): (g: Gate)
    requires InSession(t, cu)
    ensures g.Proceed? ==> photoId in t.photos
  {
    if photoId !in t.photos then Halt(Abort(404))
    else if cu != Member(t.photos[photoId].author) && !CurrentCan(t, cu, "MODERATE") then Halt(Abort(403))
    else Proceed
  }

  /** `login_required` in front of the ownership check. */
  function EditGate(t: Tables, cu: Principal, photoId: PhotoId): (g: Gate)
    requires InSession(t, cu)
    ensures g.Proceed? ==> cu.Member? && photoId in t.photos
  {
    Then(LoginRequired(cu), OwnerGate(t, cu, photoId))
  }

  /** A logged-in user gets past the ownership check exactly when the photo
      exists and they wrote it or hold MODERATE; a missing photo is 404 and
      anyone else gets 403. */
  lemma EditGateRule(t: Tables, id: UserId, photoId: PhotoId)
    requires id in t.users
    ensures EditGate(t, Member(id), photoId).Proceed? <==>
      photoId in t.photos && (t.photos[photoId].author == id || Can(t, t.users[id], "MODERATE"))
    ensures photoId !in t.photos ==> EditGate(t, Member(id), photoId) == Halt(Abort(404))
    ensures photoId in t.photos && t.photos[photoId].author != id && !Can(t, t.users[id], "MODERATE")
      ==> EditGate(t, Member(id), photoId) == Halt(Abort(403))
  {
  }

  /** The Guest is sent to the login page before anything is looked up. */
  lemma EditGateGuest(t: Tables, photoId: PhotoId)
    ensures EditGate(t, Guest, photoId) == Halt(Redirect(Login))
  {
  }

  // ---------------------------------------------------------------- edit_description

  function EditDescriptionSpec(t: Tables, cu: Principal, photoId: PhotoId, description: string): (Response, Tables)
    requires InSession(t, cu)
  {
    var g := EditGate(t, cu, photoId);
    if g.Halt? then (g.response, t)
    else if !DescriptionValid(description) then (Redirect(ShowPhoto(photoId, None)), t)
    else (Redirect(ShowPhoto(photoId, None)), SetPhoto(t, photoId, t.photos[photoId].(description := description)))
  }

  lemma EditDescriptionValid(t: Tables, cu: Principal, photoId: PhotoId, description: string)
    requires ValidTables(t) && InSession(t, cu)
    ensures ValidTables(EditDescriptionSpec(t, cu, photoId, description).1)
  {
    if EditGate(t, cu, photoId).Proceed? && DescriptionValid(description) {
      ValidSetPhoto(t, photoId, t.photos[photoId].(description := description));
    }
  }

  /** `edit_description(photo_id)` with the submitted description. */
  method EditDescription(db: Db, cu: Principal, photoId: PhotoId, description: string) returns (r: Response)
    requires InSession(db.Snapshot(), cu)
    modifies db
    ensures (r, db.Snapshot()) == EditDescriptionSpec(old(db.Snapshot()), cu, photoId, description)
  {
    var g := EditGate(db.Snapshot(), cu, photoId);
    if g.Halt? {
      return g.response;
    }
    if DescriptionValid(description) {
      db.photos := db.photos[photoId := db.photos[photoId].(description := description)];
    }
    return Redirect(ShowPhoto(photoId, None));
  }

  // ---------------------------------------------------------------- set_comment

  function SetCommentSpec(t: Tables, cu: Principal, photoId: PhotoId): (Response, Tables)
    requires InSession(t, cu)
  {
    var g := EditGate(t, cu, photoId);
    if g.Halt? then (g.response, t)
    else
      var p := t.photos[photoId];
      (Redirect(ShowPhoto(photoId, None)), SetPhoto(t, photoId, p.(canComment := !p.canComment)))
  }

  lemma SetCommentValid(t: Tables, cu: Principal, photoId: PhotoId)
    requires ValidTables(t) && InSession(t, cu)
    ensures ValidTables(SetCommentSpec(t, cu, photoId).1)
  {
    if EditGate(t, cu, photoId).Proceed? {
      var p := t.photos[photoId];
      ValidSetPhoto(t, photoId, p.(canComment := !p.canComment));
    }
  }

  /** `set_comment(photo_id)`: switch comments on the photo off, or on. */
  method SetComment(db: Db, cu: Principal, photoId: PhotoId) returns (r: Response)
    requires InSession(db.Snapshot(), cu)
    modifies db
    ensures (r, db.Snapshot()) == SetCommentSpec(old(db.Snapshot()), cu, photoId)
  {
    var g := EditGate(db.Snapshot(), cu, photoId);
    if g.Halt? {
      return g.response;
    }
    var photo := db.photos[photoId];
    if photo.canComment {
      photo := photo.(canComment := false);
    } else {
      photo := photo.(canComment := true);
    }
    db.photos := db.photos[photoId := photo];
    return Redirect(ShowPhoto(photoId, None));
  }

  /** Switching comments flips the one flag and nothing else, and switching
      twice restores the tables exactly. */
  lemma SetCommentTwice(t: Tables, cu: Principal, photoId: PhotoId)
    requires InSession(t, cu) && EditGate(t, cu, photoId).Proceed?
    ensures var s := SetCommentSpec(t, cu, photoId).1;
      && InSession(s, cu)
      && s.photos[photoId].canComment == !t.photos[photoId].canComment
      && s == SetPhoto(t, photoId, t.photos[photoId].(canComment := s.photos[photoId].canComment))
      && SetCommentSpec(s, cu, photoId).1 == t
  {
    var s := SetCommentSpec(t, cu, photoId).1;
    assert EditGate(s, cu, photoId) == EditGate(t, cu, photoId);
    assert s.photos[photoId := t.photos[photoId]] == t.photos;
  }

  // ---------------------------------------------------------------- report_photo

  /** `report_photo` calls `Photo.query.git_or_404`, which the query object
      does not have: once past the decorators it always fails, and nothing
      is changed. */
  function ReportPhotoSpec(t: Tables, cu: Principal, photoId: PhotoId): (r: Response)
    requires InSession(t, cu)
    ensures cu.Member? && t.users[cu.id].confirmed ==> r == ServerError(AttributeError("git_or_404"))
  {
    var g := Then(LoginRequired(cu), ConfirmRequired(t, cu));
    Guarded(g, ServerError(AttributeError("git_or_404")))
  }

  // ---------------------------------------------------------------- collect

  /** The decorators of `collect`: login, confirmed, COLLECT. */
  function CollectGate(t: Tables, cu: Principal): (g: Gate)
    requires InSession(t, cu)
    ensures g.Proceed? ==> cu.Member?
  {
    Then(LoginRequired(cu), Then(ConfirmRequired(t, cu), PermissionRequired(t, cu, "COLLECT")))
  }

  /** A new collector notifies the photo's author when it is someone else and
      the author asks for collect notifications. */
  predicate NotifiesCollect(t: Tables, id: UserId, photoId: PhotoId)
    requires photoId in t.photos && AuthorKnown(t, photoId)
  {
    var author := t.photos[photoId].author;
    id != author && t.users[author].receiveCollectNotification
  }

  /** `collect(photo_id)` as written.  `current_user.collect(photo)` stores
      the edge and commits; the notification call then passes `recipient=`
      where `push_collect_notification` expects `receiver`, which raises
      TypeError whenever a notification is due.  The edge is already
      committed by then. */
  function CollectSpec(t: Tables, cu: Principal, photoId: PhotoId): (Response, Tables)
    requires InSession(t, cu) && AuthorKnown(t, photoId)
  {
    var g := CollectGate(t, cu);
    if g.Halt? then (g.response, t)
    else if photoId !in t.photos then (Abort(404), t)
    else if (cu.id, photoId) in t.collects then (Redirect(ShowPhoto(photoId, None)), t)
    else
      var s := AddCollect(t, cu.id, photoId);
      if NotifiesCollect(t, cu.id, photoId) then
        (ServerError(TypeError("push_collect_notification() got an unexpected keyword argument 'recipient'")), s)
      else (Redirect(ShowPhoto(photoId, None)), s)
  }

  /** `collect` with the keyword argument spelled `receiver`: the author is
      notified. */
  function CollectFixedSpec(t: Tables, cu: Principal, photoId: PhotoId): (Response, Tables)
    requires InSession(t, cu) && AuthorKnown(t, photoId)
  {
    var g := CollectGate(t, cu);
    if g.Halt? then (g.response, t)
    else if photoId !in t.photos then (Abort(404), t)
    else if (cu.id, photoId) in t.collects then (Redirect(ShowPhoto(photoId, None)), t)
    else
      var s := AddCollect(t, cu.id, photoId);
      if NotifiesCollect(t, cu.id, photoId) then
        (Redirect(ShowPhoto(photoId, None)),
         Push(s, CollectMessage(t.users[cu.id].username, photoId), t.photos[photoId].author))
      else (Redirect(ShowPhoto(photoId, None)), s)
  }

  /** The tables with one more collect edge. */
  function AddCollect(t: Tables, id: UserId, photoId: PhotoId): (s: Tables)
    ensures s == t.(collects := s.collects) && (id, photoId) in s.collects
  {
    t.(collects := t.collects + {(id, photoId)})
  }

  lemma AddCollectValid(t: Tables, id: UserId, photoId: PhotoId)
    requires ValidTables(t) && id in t.users && photoId in t.photos
    ensures ValidTables(AddCollect(t, id, photoId))
  {
  }

  lemma CollectValid(t: Tables, cu: Principal, photoId: PhotoId)
    requires ValidTables(t) && InSession(t, cu)
    ensures ValidTables(CollectSpec(t, cu, photoId).1)
  {
    if CollectGate(t, cu).Proceed? && photoId in t.photos && (cu.id, photoId) !in t.collects {
      AddCollectValid(t, cu.id, photoId);
      assert CollectSpec(t, cu, photoId).1 == AddCollect(t, cu.id, photoId);
    }
  }

  lemma CollectFixedValid(t: Tables, cu: Principal, photoId: PhotoId)
    requires ValidTables(t) && InSession(t, cu)
    ensures ValidTables(CollectFixedSpec(t, cu, photoId).1)
  {
    if CollectGate(t, cu).Proceed? && photoId in t.photos && (cu.id, photoId) !in t.collects {
      var s := AddCollect(t, cu.id, photoId);
      AddCollectValid(t, cu.id, photoId);
      if NotifiesCollect(t, cu.id, photoId) {
        PushValid(s, CollectMessage(t.users[cu.id].username, photoId), t.photos[photoId].author);
      }
    }
  }

  /** Collecting twice is harmless: an existing edge stays as it is and
      nothing is pushed. */
  lemma CollectAgain(t: Tables, id: UserId, photoId: PhotoId)
    requires id in t.users && CollectGate(t, Member(id)).Proceed? && photoId in t.photos && AuthorKnown(t, photoId)
    requires (id, photoId) in t.collects
    ensures CollectSpec(t, Member(id), photoId) == (Redirect(ShowPhoto(photoId, None)), t)
    ensures CollectFixedSpec(t, Member(id), photoId) == (Redirect(ShowPhoto(photoId, None)), t)
  {
  }

  /** A first collect adds exactly the one edge and leaves users and photos
      untouched; in the corrected view a notification row appears exactly
      when one is due. */
  lemma CollectNew(t: Tables, id: UserId, photoId: PhotoId)
    requires id in t.users && CollectGate(t, Member(id)).Proceed? && photoId in t.photos && AuthorKnown(t, photoId)
    requires (id, photoId) !in t.collects
    ensures CollectSpec(t, Member(id), photoId).1 == t.(collects := t.collects + {(id, photoId)})
    ensures var s := CollectFixedSpec(t, Member(id), photoId).1;
      && s.collects == t.collects + {(id, photoId)}
      && s.users == t.users && s.photos == t.photos
      && (|s.notifications| == |t.notifications| + 1 <==> NotifiesCollect(t, id, photoId))
      && (!NotifiesCollect(t, id, photoId) ==> s.notifications == t.notifications)
  {
    var s := AddCollect(t, id, photoId);
    if NotifiesCollect(t, id, photoId) {
      PushAddsOne(s, CollectMessage(t.users[id].username, photoId), t.photos[photoId].author);
    }
  }

  /** The discrepancy: with a notification due, the view as written answers
      500 where the corrected view redirects and notifies the author. */
  lemma CollectKeywordFails(t: Tables, id: UserId, photoId: PhotoId)
    requires id in t.users && CollectGate(t, Member(id)).Proceed? && AuthorKnown(t, photoId)
    requires photoId in t.photos && (id, photoId) !in t.collects && NotifiesCollect(t, id, photoId)
    ensures CollectSpec(t, Member(id), photoId).0.ServerError?
    ensures CollectFixedSpec(t, Member(id), photoId).0 == Redirect(ShowPhoto(photoId, None))
    ensures |UnreadOf(CollectFixedSpec(t, Member(id), photoId).1, t.photos[photoId].author)|
         == |UnreadOf(t, t.photos[photoId].author)| + 1
    ensures CollectSpec(t, Member(id), photoId).1.notifications == t.notifications
  {
    var s := AddCollect(t, id, photoId);
    var author := t.photos[photoId].author;
    PushUnread(s, CollectMessage(t.users[id].username, photoId), author, author);
  }

  /** `collect(photo_id)`, the corrected view. */
  method Collect(db: Db, cu: Principal, photoId: PhotoId) returns (r: Response)
    requires InSession(db.Snapshot(), cu) && AuthorKnown(db.Snapshot(), photoId)
    modifies db
    ensures (r, db.Snapshot()) == CollectFixedSpec(old(db.Snapshot()), cu, photoId)
  {
    var g := CollectGate(db.Snapshot(), cu);
    if g.Halt? {
      return g.response;
    }
    if photoId !in db.photos {
      return Abort(404);
    }
    if (cu.id, photoId) in db.collects {
      return Redirect(ShowPhoto(photoId, None));
    }
    var notify := NotifiesCollect(db.Snapshot(), cu.id, photoId);
    db.collects := db.collects + {(cu.id, photoId)};
    if notify {
      PushCollectNotification(db, db.users[cu.id], photoId, db.photos[photoId].author);
    }
    return Redirect(ShowPhoto(photoId, None));
  }

  // ---------------------------------------------------------------- uncollect

  function UncollectSpec(t: Tables, cu: Principal, photoId: PhotoId): (Response, Tables)
    requires InSession(t, cu)
  {
    if cu.Guest? then (Redirect(Login), t)
    else if photoId !in t.photos then (Abort(404), t)
    else if (cu.id, photoId) in t.collects then
      (Redirect(ShowPhoto(photoId, None)), t.(collects := t.collects - {(cu.id, photoId)}))
    else (Redirect(ShowPhoto(photoId, None)), t)
  }

  /** Uncollecting removes the user's edge to the photo if there is one and
      changes nothing else; without an edge nothing changes at all. */
  lemma UncollectEffect(t: Tables, id: UserId, photoId: PhotoId)
    requires id in t.users && photoId in t.photos
    ensures var s := UncollectSpec(t, Member(id), photoId).1;
      && s == t.(collects := s.collects)
      && (id, photoId) !in s.collects
      && s.collects == t.collects - {(id, photoId)}
      && ((id, photoId) !in t.collects ==> s == t)
  {
  }

  lemma UncollectValid(t: Tables, cu: Principal, photoId: PhotoId)
    requires ValidTables(t) && InSession(t, cu)
    ensures ValidTables(UncollectSpec(t, cu, photoId).1)
  {
  }

  /** `uncollect(photo_id)`. */
  method Uncollect(db: Db, cu: Principal, photoId: PhotoId) returns (r: Response)
    requires InSession(db.Snapshot(), cu)
    modifies db
    ensures (r, db.Snapshot()) == UncollectSpec(old(db.Snapshot()), cu, photoId)
  {
    if cu.Guest? {
      return Redirect(Login);
    }
    if photoId !in db.photos {
      return Abort(404);
    }
    if (cu.id, photoId) in db.collects {
      db.collects := db.collects - {(cu.id, photoId)};
      return Redirect(ShowPhoto(photoId, None));
    }
    return Redirect(ShowPhoto(photoId, None));
  }

  // ---------------------------------------------------------------- neighbours

  /** The author's photo with the smallest id above `id`:
      `with_parent(author).filter(id > ...).order_by(id.asc()).first()`. */
  function NextPhoto(photos: map<PhotoId, Photo>, author: UserId, id: PhotoId): (r: Option<PhotoId>)
    ensures r.Some? ==> r.value in photos && photos[r.value].author == author && r.value > id
    ensures r.Some? ==> forall p :: p in photos && photos[p].author == author && p > id ==> r.value <= p
    ensures r.None? ==> forall p :: p in photos && photos[p].author == author ==> p <= id
  {
    var later := set p | p in photos && photos[p].author == author && p > id;
    assert forall p :: p in photos && photos[p].author == author && p > id ==> p in later;
    if later == {} then None else Some(MinOf(later))
  }

  /** The author's photo with the largest id below `id`. */
  function PreviousPhoto(photos: map<PhotoId, Photo>, author: UserId, id: PhotoId): (r: Option<PhotoId>)
    ensures r.Some? ==> r.value in photos && photos[r.value].author == author && r.value < id
    ensures r.Some? ==> forall p :: p in photos && photos[p].author == author && p < id ==> p <= r.value
    ensures r.None? ==> forall p :: p in photos && photos[p].author == author ==> id <= p
  {
    var earlier := set p | p in photos && photos[p].author == author && p < id;
    assert forall p :: p in photos && photos[p].author == author && p < id ==> p in earlier;
    if earlier == {} then None else Some(MaxOf(earlier))
  }

  /** `photo_next(photo_id)`: the next photo of the same author, or the same
      photo again when it is the last. */
  function PhotoNextSpec(t: Tables, photoId: PhotoId): (r: Response)
  {
    if photoId !in t.photos then Abort(404)
    else match NextPhoto(t.photos, t.photos[photoId].author, photoId)
      case None => Redirect(ShowPhoto(photoId, None))
      case Some(n) => Redirect(ShowPhoto(n, None))
  }

  /** `photo_previous(photo_id)`. */
  function PhotoPreviousSpec(t: Tables, photoId: PhotoId): (r: Response)
  {
    if photoId !in t.photos then Abort(404)
    else match PreviousPhoto(t.photos, t.photos[photoId].author, photoId)
      case None => Redirect(ShowPhoto(photoId, None))
      case Some(n) => Redirect(ShowPhoto(n, None))
  }

  /** Navigation stays among the author's photos and moves in the promised
      direction, or stays put at either end. */
  lemma NavigationRule(t: Tables, photoId: PhotoId)
    requires photoId in t.photos
    ensures var author := t.photos[photoId].author;
      && PhotoNextSpec(t, photoId).Redirect? && PhotoNextSpec(t, photoId).to.ShowPhoto?
      && PhotoPreviousSpec(t, photoId).Redirect? && PhotoPreviousSpec(t, photoId).to.ShowPhoto?
      && var n := PhotoNextSpec(t, photoId).to.photoId;
         var p := PhotoPreviousSpec(t, photoId).to.photoId;
      && n in t.photos && t.photos[n].author == author && photoId <= n
      && p in t.photos && t.photos[p].author == author && p <= photoId
      && (n == photoId <==> forall q :: q in t.photos && t.photos[q].author == author ==> q <= photoId)
      && (p == photoId <==> forall q :: q in t.photos && t.photos[q].author == author ==> photoId <= q)
      && (forall q :: q in t.photos && t.photos[q].author == author && photoId < q ==> n <= q)
      && (forall q :: q in t.photos && t.photos[q].author == author && q < photoId ==> q <= p)
  {
  }

  /** Going forward from a photo and then back returns to it. */
  lemma NextThenPrevious(t: Tables, photoId: PhotoId)
    requires photoId in t.photos
    ensures var n := PhotoNextSpec(t, photoId).to.photoId;
      PhotoNextSpec(t, photoId).Redirect? && PhotoNextSpec(t, photoId).to.ShowPhoto? &&
      (n != photoId ==> PhotoPreviousSpec(t, n) == Redirect(ShowPhoto(photoId, None)))
  {
    var author := t.photos[photoId].author;
    var next := NextPhoto(t.photos, author, photoId);
    if next.Some? {
      var back := PreviousPhoto(t.photos, author, next.value);
      assert back.Some? && back.value == photoId;
    }
  }

  // ---------------------------------------------------------------- delete_photo

  /** The tables without the photo, its comments and the edges of its
      collectors (the ORM cascades on the photo's relationships). */
  function RemovePhoto(t: Tables, photoId: PhotoId): (s: Tables)
    ensures photoId !in s.photos
    ensures forall c :: c in s.comments ==> s.comments[c].photo != photoId
    ensures forall e :: e in s.collects ==> e.1 != photoId
  {
    t.(photos := t.photos - {photoId},
       comments := map c | c in t.comments && t.comments[c].photo != photoId :: t.comments[c],
       collects := set e | e in t.collects && e.1 != photoId)
  }

  /** Where `delete_photo` goes next: the author's next photo, else the
      previous one, else the author's page. */
  function AfterDelete(t: Tables, photoId: PhotoId, author: UserId): (r: Response)
    requires author in t.users
    ensures r.Redirect?
    ensures r.to.ShowPhoto? ==>
      var q := r.to.photoId;
      && q in t.photos && q != photoId && t.photos[q].author == author
      && (q > photoId ==> forall o :: o in t.photos && t.photos[o].author == author && o > photoId ==> q <= o)
      && (q < photoId ==>
            && (forall o :: o in t.photos && t.photos[o].author == author ==> o <= photoId)
            && (forall o :: o in t.photos && t.photos[o].author == author && o < photoId ==> o <= q))
    ensures !r.to.ShowPhoto? ==>
      r.to == UserIndex(t.users[author].username) &&
      forall o :: o in t.photos && t.photos[o].author == author ==> o == photoId
  {
    match NextPhoto(t.photos, author, photoId)
    case Some(n) => Redirect(ShowPhoto(n, None))
    case None =>
      match PreviousPhoto(t.photos, author, photoId)
      case Some(p) => Redirect(ShowPhoto(p, None))
      case None => Redirect(UserIndex(t.users[author].username))
  }

  function DeletePhotoSpec(t: Tables, cu: Principal, photoId: PhotoId): (Response, Tables)
    requires InSession(t, cu) && AuthorKnown(t, photoId)
  {
    var g := EditGate(t, cu, photoId);
    if g.Halt? then (g.response, t)
    else
      var s := RemovePhoto(t, photoId);
      (AfterDelete(s, photoId, t.photos[photoId].author), s)
  }

  lemma RemovePhotoValid(t: Tables, photoId: PhotoId)
    requires ValidTables(t)
    ensures ValidTables(RemovePhoto(t, photoId))
  {
  }

  lemma DeletePhotoValid(t: Tables, cu: Principal, photoId: PhotoId)
    requires ValidTables(t) && InSession(t, cu)
    ensures ValidTables(DeletePhotoSpec(t, cu, photoId).1)
  {
    RemovePhotoValid(t, photoId);
  }

  /** After a delete the photo, its comments and its collect edges are gone,
      and every other row is kept. */
  lemma DeletePhotoEffect(t: Tables, cu: Principal, photoId: PhotoId)
    requires InSession(t, cu) && AuthorKnown(t, photoId) && EditGate(t, cu, photoId).Proceed?
    ensures var s := DeletePhotoSpec(t, cu, photoId).1;
      && s.photos == t.photos - {photoId}
      && (forall c :: c in t.comments ==> (c in s.comments <==> t.comments[c].photo != photoId))
      && (forall c :: c in s.comments ==> c in t.comments && s.comments[c] == t.comments[c])
      && (forall e :: e in t.collects ==> (e in s.collects <==> e.1 != photoId))
      && s.collects <= t.collects
      && s == t.(photos := s.photos, comments := s.comments, collects := s.collects)
  {
  }

  /** `delete_photo(photo_id)`. */
  method DeletePhoto(db: Db, cu: Principal, photoId: PhotoId) returns (r: Response)
    requires InSession(db.Snapshot(), cu) && AuthorKnown(db.Snapshot(), photoId)
    modifies db
    ensures (r, db.Snapshot()) == DeletePhotoSpec(old(db.Snapshot()), cu, photoId)
  {
    var g := EditGate(db.Snapshot(), cu, photoId);
    if g.Halt? {
      return g.response;
    }
    var author := db.photos[photoId].author;
    var comments := map c | c in db.comments && db.comments[c].photo != photoId :: db.comments[c];
    var collects := set e | e in db.collects && e.1 != photoId;
    db.photos, db.comments, db.collects := db.photos - {photoId}, comments, collects;
    var next := NextPhoto(db.photos, author, photoId);
    if next.None? {
      next := PreviousPhoto(db.photos, author, photoId);
    }
    if next.None? {
      return Redirect(UserIndex(db.users[author].username));
    }
    return Redirect(ShowPhoto(next.value, None));
  }

  // ---------------------------------------------------------------- notifications

  function ReadNotificationSpec(t: Tables, cu: Principal, nid: NotificationId): (Response, Tables)
    requires InSession(t, cu)
  {
    if cu.Guest? then (Redirect(Login), t)
    else if nid !in t.notifications then (Abort(404), t)
    else if cu != Member(t.notifications[nid].receiver) then (Abort(403), t)
    else (Redirect(ShowNotifications), SetNotification(t, nid, t.notifications[nid].(isRead := true)))
  }

  /** Only the receiver can archive a notification, and archiving marks it
      read and changes nothing else; anyone else gets 403. */
  lemma ReadNotificationRule(t: Tables, id: UserId, nid: NotificationId)
    requires id in t.users && nid in t.notifications
    ensures var (r, s) := ReadNotificationSpec(t, Member(id), nid);
      && (r == Abort(403) <==> t.notifications[nid].receiver != id)
      && (r == Abort(403) ==> s == t)
      && (r != Abort(403) ==>
            && s.notifications.Keys == t.notifications.Keys
            && s.notifications[nid] == t.notifications[nid].(isRead := true)
            && nid !in UnreadOf(s, id)
            && UnreadOf(s, id) == UnreadOf(t, id) - {nid})
      && (forall m :: m in t.notifications && m != nid ==> s.notifications[m] == t.notifications[m])
      && s == t.(notifications := s.notifications)
  {
    var s := ReadNotificationSpec(t, Member(id), nid).1;
    if t.notifications[nid].receiver == id {
      assert UnreadOf(s, id) == UnreadOf(t, id) - {nid};
    }
  }

  lemma ReadNotificationValid(t: Tables, cu: Principal, nid: NotificationId)
    requires ValidTables(t) && InSession(t, cu)
    ensures ValidTables(ReadNotificationSpec(t, cu, nid).1)
  {
    if cu.Member? && nid in t.notifications && cu == Member(t.notifications[nid].receiver) {
      ValidSetNotification(t, nid, t.notifications[nid].(isRead := true));
    }
  }

  /** `read_notification(notification_id)`. */
  method ReadNotification(db: Db, cu: Principal, nid: NotificationId) returns (r: Response)
    requires InSession(db.Snapshot(), cu)
    modifies db
    ensures (r, db.Snapshot()) == ReadNotificationSpec(old(db.Snapshot()), cu, nid)
  {
    if cu.Guest? {
      return Redirect(Login);
    }
    if nid !in db.notifications {
      return Abort(404);
    }
    if cu != Member(db.notifications[nid].receiver) {
      return Abort(403);
    }
    db.notifications := db.notifications[nid := db.notifications[nid].(isRead := true)];
    return Redirect(ShowNotifications);
  }

  /** Every notification of `uid` marked read, the others as they were. */
  function ReadAll(ns: map<NotificationId, Notification>, uid: UserId): (r: map<NotificationId, Notification>)
  {
    map n | n in ns :: if ns[n].receiver == uid then ns[n].(isRead := true) else ns[n]
  }

  function ReadAllSpec(t: Tables, cu: Principal): (Response, Tables)
  {
    if cu.Guest? then (Redirect(Login), t)
    else (Redirect(ShowNotifications), t.(notifications := ReadAll(t.notifications, cu.id)))
  }

  /** After `read_all_notification` the user has no unread notification left,
      every other user's unread set is as before, and no row is added,
      removed, readdressed or reworded. */
  lemma ReadAllEffect(t: Tables, id: UserId)
    ensures var s := ReadAllSpec(t, Member(id)).1;
      && s == t.(notifications := s.notifications)
      && s.notifications.Keys == t.notifications.Keys
      && UnreadOf(s, id) == {}
      && (forall v :: v != id ==> UnreadOf(s, v) == UnreadOf(t, v))
      && (forall n :: n in t.notifications ==>
            s.notifications[n].receiver == t.notifications[n].receiver &&
            s.notifications[n].message == t.notifications[n].message)
  {
    var s := ReadAllSpec(t, Member(id)).1;
    assert UnreadOf(s, id) == {};
  }

  lemma ReadAllValid(t: Tables, cu: Principal)
    requires ValidTables(t)
    ensures ValidTables(ReadAllSpec(t, cu).1)
  {
  }

  /** `read_all_notification()`: the loop over `current_user.notifications`. */
  method ReadAllNotification(db: Db, cu: Principal) returns (r: Response)
    modifies db
    ensures (r, db.Snapshot()) == ReadAllSpec(old(db.Snapshot()), cu)
  {
    if cu.Guest? {
      return Redirect(Login);
    }
    var ns := db.notifications;
    var todo := set n | n in ns && ns[n].receiver == cu.id;
    var updated := ns;
    while todo != {}
      invariant todo <= ns.Keys && updated.Keys == ns.Keys
      invariant forall n :: n in todo ==> ns[n].receiver == cu.id
      invariant forall n :: n in ns ==>
        updated[n] == if ns[n].receiver == cu.id && n !in todo then ns[n].(isRead := true) else ns[n]
      decreases |todo|
    {
      var n :| n in todo;
      updated := updated[n := updated[n].(isRead := true)];
      todo := todo - {n};
    }
    assert updated == ReadAll(ns, cu.id);
    db.notifications := updated;
    return Redirect(ShowNotifications);
  }

  // ---------------------------------------------------------------- index

  /** The photos on a logged-in user's index page: those whose author the
      user follows (ordering and pagination aside).  The Guest gets none. */
  function FeedPhotos(t: Tables, cu: Principal): (r: Option<set<PhotoId>>)
    ensures cu.Guest? <==> r.None?
    ensures r.Some? ==> forall p :: p in r.value <==> p in t.photos && (cu.id, t.photos[p].author) in t.follows
  {
    match cu
    case Guest => None
    case Member(id) => Some(set p | p in t.photos && (id, t.photos[p].author) in t.follows)
  }
}
