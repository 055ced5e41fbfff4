/** The comment views of the `main` blueprint: `report_comment` and
    `new_comment`. */
module MainComments {
  import opened Base
  import opened Http
  import opened Models
  import opened Decorators
  import opened Notifications
  import opened FormsMain

  // ---------------------------------------------------------------- report_comment

  function ReportCommentSpec(t: Tables, cu: Principal, commentId: CommentId): (Response, Tables)
    requires InSession(t, cu)
  {
    var g := Then(LoginRequired(cu), ConfirmRequired(t, cu));
    if g.Halt? then (g.response, t)
    else if commentId !in t.comments then (Abort(404), t)
    else (Redirect(ShowPhoto(t.comments[commentId].photo, None)), Flagged(t, commentId))
  }

  /** The tables with comment `commentId` reported once more. */
  function Flagged(t: Tables, commentId: CommentId): (s: Tables)
    requires commentId in t.comments
    ensures s == t.(comments := s.comments) && s.comments.Keys == t.comments.Keys
    ensures s.comments[commentId] == t.comments[commentId].(flag := t.comments[commentId].flag + 1)
    ensures forall d :: d in t.comments && d != commentId ==> s.comments[d] == t.comments[d]
  {
    t.(comments := t.comments[commentId := t.comments[commentId].(flag := t.comments[commentId].flag + 1)])
  }

  /** A report raises that comment's flag by exactly one and changes nothing
      else; the unconfirmed user is sent to the index with nothing changed. */
  lemma ReportCommentEffect(t: Tables, id: UserId, commentId: CommentId)
    requires id in t.users && commentId in t.comments
    ensures var (r, s) := ReportCommentSpec(t, Member(id), commentId);
      && (!t.users[id].confirmed ==> r == Redirect(MainIndex) && s == t)
      && (t.users[id].confirmed ==>
            && r == Redirect(ShowPhoto(t.comments[commentId].photo, None))
            && s.comments[commentId].flag == t.comments[commentId].flag + 1
            && s.comments[commentId] == t.comments[commentId].(flag := s.comments[commentId].flag)
            && s == t.(comments := s.comments) && s.comments.Keys == t.comments.Keys
            && (forall d :: d in t.comments && d != commentId ==> s.comments[d] == t.comments[d]))
  {
  }

  lemma FlaggedValid(t: Tables, commentId: CommentId)
    requires ValidTables(t) && commentId in t.comments
    ensures ValidTables(Flagged(t, commentId))
  {
    var s := Flagged(t, commentId);
    assert s.users == t.users && s.photos == t.photos;
    assert CommentsValid(s.comments, s.users, s.photos) by {
      forall c | c in s.comments
        ensures s.comments[c].author in s.users && s.comments[c].photo in s.photos
      {
        assert s.comments[c].author == t.comments[c].author && s.comments[c].photo == t.comments[c].photo;
      }
    }
  }

  lemma ReportCommentValid(t: Tables, cu: Principal, commentId: CommentId)
    requires ValidTables(t) && InSession(t, cu)
    ensures ValidTables(ReportCommentSpec(t, cu, commentId).1)
  {
    if cu.Guest? || !t.users[cu.id].confirmed || commentId !in t.comments {
      assert ReportCommentSpec(t, cu, commentId).1 == t;
    } else {
      FlaggedValid(t, commentId);
      assert ReportCommentSpec(t, cu, commentId).1 == Flagged(t, commentId);
    }
  }

  /** `report_comment(comment_id)`. */
  method ReportComment(db: Db, cu: Principal, commentId: CommentId) returns (r: Response)
    requires InSession(db.Snapshot(), cu)
    modifies db
    ensures (r, db.Snapshot()) == ReportCommentSpec(old(db.Snapshot()), cu, commentId)
  {
    var g := Then(LoginRequired(cu), ConfirmRequired(db.Snapshot(), cu));
    if g.Halt? {
      return g.response;
    }
    if commentId !in db.comments {
      return Abort(404);
    }
    var c := db.comments[commentId];
    db.comments := db.comments[commentId := c.(flag := c.flag + 1)];
    return Redirect(ShowPhoto(c.photo, None));
  }

  // ---------------------------------------------------------------- new_comment

  /** `new_comment(photo_id)` as written: the form's field is `comment`, but
      the view reads `form.body`, so every valid submission raises
      AttributeError before anything is stored.  An invalid one flashes the
      errors and redirects.  `page` is the `page` query argument. */
  function NewCommentSpec(t: Tables, cu: Principal, photoId: PhotoId, comment: string, page: int): (Response, Tables)
    requires InSession(t, cu)
  {
    if cu.Guest? then (Redirect(Login), t)
    else if photoId !in t.photos then (Abort(404), t)
    else if CommentValid(comment) then (ServerError(AttributeError("body")), t)
    else (Redirect(ShowPhoto(photoId, Some(page))), t)
  }

  /** A new comment notifies the photo's author when it is someone else and
      the author asks for comment notifications. */
  predicate NotifiesComment(t: Tables, id: UserId, photoId: PhotoId)
    requires photoId in t.photos && AuthorKnown(t, photoId)
  {
    var author := t.photos[photoId].author;
    id != author && t.users[author].receiveCommentNotification
  }

  /** The tables with the new comment stored under the next free id. */
  function AddComment(t: Tables, c: Comment): (s: Tables)
    ensures s == t.(comments := s.comments)
    ensures s.comments.Keys == t.comments.Keys + {FreshId(t.comments.Keys)}
  {
    t.(comments := t.comments[FreshId(t.comments.Keys) := c])
  }

  lemma AddCommentValid(t: Tables, c: Comment)
    requires ValidTables(t) && c.author in t.users && c.photo in t.photos
    ensures ValidTables(AddComment(t, c))
  {
    var s := AddComment(t, c);
    assert CommentsValid(s.comments, s.users, s.photos);
  }

  /** `new_comment` reading `form.comment`: a valid comment is stored, as a
      reply when the `reply` argument names an existing comment (404 when it
      names none), and the author is notified with a link to page 1.
      `reply` is None when the argument is absent or empty. */
  function NewCommentFixedSpec(t: Tables, cu: Principal, photoId: PhotoId, comment: string, page: int,
                               reply: Option<CommentId>): (Response, Tables)
    requires InSession(t, cu) && AuthorKnown(t, photoId)
  {
    if cu.Guest? then (Redirect(Login), t)
    else if photoId !in t.photos then (Abort(404), t)
    else if !CommentValid(comment) then (Redirect(ShowPhoto(photoId, Some(page))), t)
    else if reply.Some? && reply.value !in t.comments then (Abort(404), t)
    else
      var s := AddComment(t, Comment(comment, cu.id, photoId, 0, reply));
      if NotifiesComment(t, cu.id, photoId) then
        (Redirect(ShowPhoto(photoId, Some(page))), Push(s, CommentMessage(photoId, 1), t.photos[photoId].author))
      else (Redirect(ShowPhoto(photoId, Some(page))), s)
  }

  /** The discrepancy: a valid comment is lost with a 500 as written, while
      the corrected view stores exactly one new comment by the user on the
      photo. */
  lemma NewCommentBodyFails(t: Tables, id: UserId, photoId: PhotoId, comment: string, page: int)
    requires id in t.users && photoId in t.photos && AuthorKnown(t, photoId) && CommentValid(comment)
    ensures NewCommentSpec(t, Member(id), photoId, comment, page) == (ServerError(AttributeError("body")), t)
    ensures var s := NewCommentFixedSpec(t, Member(id), photoId, comment, page, None).1;
      && |s.comments| == |t.comments| + 1
      && (forall c :: c in t.comments ==> c in s.comments && s.comments[c] == t.comments[c])
      && (exists c :: c in s.comments && c !in t.comments && s.comments[c] == Comment(comment, id, photoId, 0, None))
  {
    var c := FreshId(t.comments.Keys);
    var s := AddComment(t, Comment(comment, id, photoId, 0, None));
    assert c in s.comments && c !in t.comments;
  }

  /** A stored comment pushes one notification to the photo's author exactly
      when the commenter is someone else and the author wants comment
      notifications; otherwise the notification table is untouched. */
  lemma CommentNotificationRule(t: Tables, id: UserId, photoId: PhotoId, comment: string, page: int, reply: Option<CommentId>)
    requires id in t.users && photoId in t.photos && AuthorKnown(t, photoId) && CommentValid(comment)
    requires reply.Some? ==> reply.value in t.comments
    ensures var s := NewCommentFixedSpec(t, Member(id), photoId, comment, page, reply).1;
      var author := t.photos[photoId].author;
      && (|UnreadOf(s, author)| == |UnreadOf(t, author)| + 1 <==> NotifiesComment(t, id, photoId))
      && (!NotifiesComment(t, id, photoId) ==> s.notifications == t.notifications)
      && (forall v :: v != author ==> UnreadOf(s, v) == UnreadOf(t, v))
  {
    var s := AddComment(t, Comment(comment, id, photoId, 0, reply));
    var author := t.photos[photoId].author;
    if NotifiesComment(t, id, photoId) {
      PushUnread(s, CommentMessage(photoId, 1), author, author);
      var after := Push(s, CommentMessage(photoId, 1), author);
      forall v | v != author
        ensures UnreadOf(after, v) == UnreadOf(t, v)
      {
        var n := FreshId(s.notifications.Keys);
        assert after.notifications == s.notifications[n := Notification(CommentMessage(photoId, 1), author, false)];
        assert UnreadOf(after, v) == UnreadOf(s, v);
      }
    }
  }

  lemma NewCommentFixedValid(t: Tables, cu: Principal, photoId: PhotoId, comment: string, page: int, reply: Option<CommentId>)
    requires ValidTables(t) && InSession(t, cu)
    ensures ValidTables(NewCommentFixedSpec(t, cu, photoId, comment, page, reply).1)
  {
    if cu.Guest? || photoId !in t.photos || !CommentValid(comment) || (reply.Some? && reply.value !in t.comments) {
      assert NewCommentFixedSpec(t, cu, photoId, comment, page, reply).1 == t;
    } else {
      var s := AddComment(t, Comment(comment, cu.id, photoId, 0, reply));
      AddCommentValid(t, Comment(comment, cu.id, photoId, 0, reply));
      if NotifiesComment(t, cu.id, photoId) {
        PushValid(s, CommentMessage(photoId, 1), t.photos[photoId].author);
        assert NewCommentFixedSpec(t, cu, photoId, comment, page, reply).1 == Push(s, CommentMessage(photoId, 1), t.photos[photoId].author);
      } else {
        assert NewCommentFixedSpec(t, cu, photoId, comment, page, reply).1 == s;
      }
    }
  }

  /** `new_comment(photo_id)`, reading the form's `comment` field. */
  method NewComment(db: Db, cu: Principal, photoId: PhotoId, comment: string, page: int, reply: Option<CommentId>)
    returns (r: Response)
    requires InSession(db.Snapshot(), cu) && AuthorKnown(db.Snapshot(), photoId)
    modifies db
    ensures (r, db.Snapshot()) == NewCommentFixedSpec(old(db.Snapshot()), cu, photoId, comment, page, reply)
  {
    if cu.Guest? {
      return Redirect(Login);
    }
    if photoId !in db.photos {
      return Abort(404);
    }
    if CommentValid(comment) {
      if reply.Some? && reply.value !in db.comments {
        return Abort(404);
      }
      var notify := NotifiesComment(db.Snapshot(), cu.id, photoId);
      var id := FreshId(db.comments.Keys);
      db.comments := db.comments[id := Comment(comment, cu.id, photoId, 0, reply)];
      if notify {
        PushCommentNotification(db, photoId, db.photos[photoId].author);
      }
    }
    return Redirect(ShowPhoto(photoId, Some(page)));
  }
}
