/** Tagging in the `main` blueprint: `new_tag` finds or creates a tag for
    each word of the input and attaches the ones the photo lacks;
    `delete_tag` detaches one tag and deletes its row once no photo carries
    it. */
module MainTags {
  import opened Base
  import opened Text
  import opened Http
  import opened Models
  import opened Decorators
  import opened FormsMain
  import opened MainViews

  /** `Tag.query.filter_by(name=name).first()`: the tag of that name with the
      smallest id (the session flushes new tags before each query). */
  function FindTag(tags: map<TagId, Tag>, name: string): (r: Option<TagId>)
    ensures r.Some? ==> r.value in tags && tags[r.value].name == name
    ensures r.None? ==> forall k :: k in tags ==> tags[k].name != name
  {
    var ids := set k | k in tags && tags[k].name == name;
    assert forall k :: k in tags && tags[k].name == name ==> k in ids;
    if ids == {} then None else Some(MinOf(ids))
  }

  /** One turn of the loop of `new_tag`: find or create the tag, then append
      it to the photo's list unless it is there already. */
  function AddTag(tags: map<TagId, Tag>, list: seq<TagId>, name: string): (map<TagId, Tag>, seq<TagId>)
  {
    var (after, id) := match FindTag(tags, name)
      case Some(k) => (tags, k)
      case None => var k := FreshId(tags.Keys); (tags[k := Tag(name)], k);
    (after, if id in list then list else list + [id])
  }

  /** The whole loop over the words of the input. */
  function AddTags(tags: map<TagId, Tag>, list: seq<TagId>, names: seq<string>): (map<TagId, Tag>, seq<TagId>)
    decreases |names|
  {
    if names == [] then (tags, list)
    else
      var (tags1, list1) := AddTag(tags, list, names[0]);
      AddTags(tags1, list1, names[1..])
  }

  /** Every row of `tags` is still in `after`, unchanged. */
  ghost predicate Retains(tags: map<TagId, Tag>, after: map<TagId, Tag>)
  {
    forall k :: k in tags ==> k in after && after[k] == tags[k]
  }

  /** `name` is the name of one of the tags on the list. */
  ghost predicate Carries(tags: map<TagId, Tag>, list: seq<TagId>, name: string)
  {
    exists i :: 0 <= i < |list| && list[i] in tags && tags[list[i]].name == name
  }

  /** One turn keeps the tag names unique and the list free of repeats and
      of dangling ids. */
  lemma AddTagEffect(tags: map<TagId, Tag>, list: seq<TagId>, name: string)
    requires UniqueTagNames(tags) && TagListValid(tags, list)
    ensures var (after, l) := AddTag(tags, list, name);
      UniqueTagNames(after) && TagListValid(after, l)
  {
    var (after, l) := AddTag(tags, list, name);
    var found := FindTag(tags, name);
    var id := if found.Some? then found.value else FreshId(tags.Keys);
    assert id in after && after[id].name == name;
  }

  lemma RetainsTransitive(a: map<TagId, Tag>, b: map<TagId, Tag>, c: map<TagId, Tag>)
    requires Retains(a, b) && Retains(b, c)
    ensures Retains(a, c)
  {
  }

  /** A name on a list stays on it when the list grows at the end and the
      tag table keeps its rows. */
  lemma CarriesGrow(tags: map<TagId, Tag>, list: seq<TagId>, after: map<TagId, Tag>, l: seq<TagId>, name: string)
    requires Carries(tags, list, name) && Retains(tags, after)
    requires |list| <= |l| && l[..|list|] == list
    ensures Carries(after, l, name)
  {
    var i :| 0 <= i < |list| && list[i] in tags && tags[list[i]].name == name;
    assert l[i] == list[i];
  }

  /** One turn keeps every existing tag, keeps the list as a prefix, and
      leaves the name on the list, whatever the tables hold. */
  lemma AddTagGrows(tags: map<TagId, Tag>, list: seq<TagId>, name: string)
    ensures var (after, l) := AddTag(tags, list, name);
      Retains(tags, after) && |list| <= |l| && l[..|list|] == list && Carries(after, l, name)
  {
    var (after, l) := AddTag(tags, list, name);
    var found := FindTag(tags, name);
    var id := if found.Some? then found.value else FreshId(tags.Keys);
    assert id in after && after[id].name == name;
    if id in list {
      var i :| 0 <= i < |list| && list[i] == id;
      assert l[i] == id;
    } else {
      assert l[|list|] == id;
    }
  }

  /** The loop keeps every existing tag and the list it started from as a
      prefix. */
  lemma {:induction false} AddTagsRetains(tags: map<TagId, Tag>, list: seq<TagId>, names: seq<string>)
    ensures var (after, l) := AddTags(tags, list, names);
      Retains(tags, after) && |list| <= |l| && l[..|list|] == list
    decreases |names|
  {
    if names != [] {
      var (tags1, list1) := AddTag(tags, list, names[0]);
      AddTagGrows(tags, list, names[0]);
      AddTagsRetains(tags1, list1, names[1..]);
      var (after, l) := AddTags(tags1, list1, names[1..]);
      assert (after, l) == AddTags(tags, list, names);
      RetainsTransitive(tags, tags1, after);
      assert l[..|list|] == l[..|list1|][..|list|];
    }
  }

  /** The loop keeps the tag names unique and the list free of repeats and
      of dangling ids. */
  lemma {:induction false} AddTagsKeeps(tags: map<TagId, Tag>, list: seq<TagId>, names: seq<string>)
    requires UniqueTagNames(tags) && TagListValid(tags, list)
    ensures var (after, l) := AddTags(tags, list, names);
      UniqueTagNames(after) && TagListValid(after, l)
    decreases |names|
  {
    if names != [] {
      var (tags1, list1) := AddTag(tags, list, names[0]);
      AddTagEffect(tags, list, names[0]);
      AddTagsKeeps(tags1, list1, names[1..]);
      assert AddTags(tags1, list1, names[1..]) == AddTags(tags, list, names);
    }
  }

  /** After the loop every word of the input names a tag on the list. */
  lemma {:induction false} AddTagsCarries(tags: map<TagId, Tag>, list: seq<TagId>, names: seq<string>)
    ensures var (after, l) := AddTags(tags, list, names);
      forall j :: 0 <= j < |names| ==> Carries(after, l, names[j])
    decreases |names|
  {
    if names != [] {
      var (tags1, list1) := AddTag(tags, list, names[0]);
      AddTagGrows(tags, list, names[0]);
      AddTagsRetains(tags1, list1, names[1..]);
      AddTagsCarries(tags1, list1, names[1..]);
      var (after, l) := AddTags(tags1, list1, names[1..]);
      assert (after, l) == AddTags(tags, list, names);
      CarriesGrow(tags1, list1, after, l, names[0]);
      forall j | 0 <= j < |names|
        ensures Carries(after, l, names[j])
      {
        if j > 0 {
          assert names[j] == names[1..][j - 1];
        }
      }
    }
  }

  /** Conversely, the loop attaches only tags named by a word of the input,
      and every row it creates is named by one. */
  lemma {:induction false} AddTagsOnlyNames(tags: map<TagId, Tag>, list: seq<TagId>, names: seq<string>)
    ensures var (after, l) := AddTags(tags, list, names);
      && (forall k :: k in l ==> k in list || (k in after && after[k].name in names))
      && (forall k :: k in after && k !in tags ==> after[k].name in names)
    decreases |names|
  {
    if names != [] {
      var (tags1, list1) := AddTag(tags, list, names[0]);
      AddTagsRetains(tags1, list1, names[1..]);
      AddTagsOnlyNames(tags1, list1, names[1..]);
      var (after, l) := AddTags(tags1, list1, names[1..]);
      assert (after, l) == AddTags(tags, list, names);
      assert forall w :: w in names[1..] ==> w in names;
      assert names[0] in names;
    }
  }

  /** After the loop every word of the input names a tag on the photo, the
      photo carries no tag twice, no second tag with an existing name was
      created, the tags attached before stay attached, and every tag attached
      or created is named by a word of the input. */
  lemma AddTagsEffect(tags: map<TagId, Tag>, list: seq<TagId>, names: seq<string>)
    requires UniqueTagNames(tags) && TagListValid(tags, list)
    ensures var (after, l) := AddTags(tags, list, names);
      && UniqueTagNames(after) && TagListValid(after, l) && Retains(tags, after)
      && |list| <= |l| && l[..|list|] == list
      && (forall j :: 0 <= j < |names| ==> Carries(after, l, names[j]))
      && (forall k :: k in l ==> k in list || (k in after && after[k].name in names))
      && (forall k :: k in after && k !in tags ==> after[k].name in names)
  {
    AddTagsRetains(tags, list, names);
    AddTagsKeeps(tags, list, names);
    AddTagsCarries(tags, list, names);
    AddTagsOnlyNames(tags, list, names);
  }

  /** A tag list stays valid when the tag table only gains rows. */
  lemma TagListRetained(tags: map<TagId, Tag>, after: map<TagId, Tag>, list: seq<TagId>)
    requires TagListValid(tags, list) && Retains(tags, after)
    ensures TagListValid(after, list)
  {
  }

  /** What `new_tag` leaves: the new tag table and the photo's new list. */
  function TagPhoto(t: Tables, photoId: PhotoId, input: string): (s: Tables)
    requires photoId in t.photos
  {
    var (after, l) := AddTags(t.tags, t.photos[photoId].tags, Split(input));
    t.(tags := after, photos := t.photos[photoId := t.photos[photoId].(tags := l)])
  }

  /** `new_tag(photo_id)` with the submitted input.  With an invalid form the
      view falls off its end and returns None, which Flask refuses with a
      TypeError. */
  function NewTagSpec(t: Tables, cu: Principal, photoId: PhotoId, input: string): (Response, Tables)
    requires InSession(t, cu)
  {
    var g := EditGate(t, cu, photoId);
    if g.Halt? then (g.response, t)
    else if !TagValid(input) then (ServerError(TypeError("the view function did not return a valid response")), t)
    else (Redirect(ShowPhoto(photoId, None)), TagPhoto(t, photoId, input))
  }

  /** After `new_tag` every word of the input names a tag on the photo, the
      photo carries no tag twice, tag names stay unique, every tag row is
      kept, the tags attached before stay attached in front, and every tag
      newly attached or created is named by a word of the input. */
  lemma NewTagEffect(t: Tables, photoId: PhotoId, input: string)
    requires ValidTables(t) && photoId in t.photos
    ensures var s := TagPhoto(t, photoId, input);
      var before := t.photos[photoId].tags;
      var l := s.photos[photoId].tags;
      && s == t.(tags := s.tags, photos := s.photos)
      && s.photos.Keys == t.photos.Keys
      && (forall w :: w in Split(input) ==> Carries(s.tags, l, w))
      && Distinct(l) && UniqueTagNames(s.tags) && Retains(t.tags, s.tags)
      && |before| <= |l| && l[..|before|] == before
      && (forall q :: q in t.photos && q != photoId ==> s.photos[q] == t.photos[q])
      && (forall k :: k in l ==> k in before || (k in s.tags && s.tags[k].name in Split(input)))
      && (forall k :: k in s.tags && k !in t.tags ==> s.tags[k].name in Split(input))
  {
    AddTagsEffect(t.tags, t.photos[photoId].tags, Split(input));
  }

  lemma NewTagValid(t: Tables, cu: Principal, photoId: PhotoId, input: string)
    requires ValidTables(t) && InSession(t, cu)
    ensures ValidTables(NewTagSpec(t, cu, photoId, input).1)
  {
    if EditGate(t, cu, photoId).Proceed? && TagValid(input) {
      var s := TagPhoto(t, photoId, input);
      AddTagsEffect(t.tags, t.photos[photoId].tags, Split(input));
      forall q | q in s.photos
        ensures s.photos[q].author in s.users && TagListValid(s.tags, s.photos[q].tags)
      {
        if q != photoId {
          TagListRetained(t.tags, s.tags, t.photos[q].tags);
        }
      }
      assert PhotosValid(s.photos, s.users, s.tags);
    }
  }

  /** An empty or blank input validates and adds nothing. */
  lemma NewTagBlank(t: Tables, cu: Principal, photoId: PhotoId, input: string)
    requires InSession(t, cu) && EditGate(t, cu, photoId).Proceed? && Blank(input)
    ensures NewTagSpec(t, cu, photoId, input) == (Redirect(ShowPhoto(photoId, None)), t)
  {
    TagRule(input);
    SplitBlank(input);
    assert t.photos[photoId := t.photos[photoId].(tags := t.photos[photoId].tags)] == t.photos;
  }

  /** `new_tag(photo_id)`: the loop over `form.tag.data.split()`. */
  method NewTag(db: Db, cu: Principal, photoId: PhotoId, input: string) returns (r: Response)
    requires InSession(db.Snapshot(), cu)
    modifies db
    ensures (r, db.Snapshot()) == NewTagSpec(old(db.Snapshot()), cu, photoId, input)
  {
    var g := EditGate(db.Snapshot(), cu, photoId);
    if g.Halt? {
      return g.response;
    }
    if !TagValid(input) {
      return ServerError(TypeError("the view function did not return a valid response"));
    }
    var names := Split(input);
    var tags := db.tags;
    var list := db.photos[photoId].tags;
    var i := 0;
    while i < |names|
      invariant 0 <= i <= |names|
      invariant AddTags(tags, list, names[i..]) == AddTags(db.tags, db.photos[photoId].tags, names)
    {
      var name := names[i];
      assert names[i..][0] == name && names[i..][1..] == names[i + 1..];
      var found := FindTag(tags, name);
      var id: TagId;
      if found.None? {
        id := FreshId(tags.Keys);
        tags := tags[id := Tag(name)];
      } else {
        id := found.value;
      }
      if id !in list {
        list := list + [id];
      }
      i := i + 1;
    }
    assert names[i..] == [];
    db.tags, db.photos := tags, db.photos[photoId := db.photos[photoId].(tags := list)];
    return Redirect(ShowPhoto(photoId, None));
  }

  // ---------------------------------------------------------------- delete_tag

  /** `list.index(x)`: the position of the first occurrence. */
  function IndexOf(list: seq<TagId>, x: TagId): (i: nat)
    requires x in list
    ensures i < |list| && list[i] == x
    ensures forall j :: 0 <= j < i ==> list[j] != x
  {
    if list[0] == x then 0 else 1 + IndexOf(list[1..], x)
  }

  /** `list.remove(x)`: drop the first occurrence. */
  function RemoveFirst(list: seq<TagId>, x: TagId): (r: seq<TagId>)
    requires x in list
    ensures |r| == |list| - 1
  {
    var i := IndexOf(list, x);
    list[..i] + list[i + 1..]
  }

  /** On a list without repeats, removing x drops x and keeps everything
      else, still without repeats. */
  lemma RemoveFirstDistinct(list: seq<TagId>, x: TagId)
    requires x in list && Distinct(list)
    ensures var r := RemoveFirst(list, x);
      x !in r && Distinct(r) && forall y :: y != x ==> (y in r <==> y in list)
  {
    var i := IndexOf(list, x);
    var r := RemoveFirst(list, x);
    assert forall k :: 0 <= k < |r| ==> r[k] == if k < i then list[k] else list[k + 1];
    forall y | y in list && y != x
      ensures y in r
    {
      var k :| 0 <= k < |list| && list[k] == y;
      if k < i {
        assert r[k] == y;
      } else {
        assert r[k - 1] == y;
      }
    }
  }

  /** `tag.photos` is non-empty: some photo still carries the tag. */
  predicate CarriedBySome(photos: map<PhotoId, Photo>, tagId: TagId)
  {
    exists p :: p in photos && tagId in photos[p].tags
  }

  /** The tables after detaching the tag from the photo and deleting the
      tag row if that left it on no photo. */
  function DetachTag(t: Tables, photoId: PhotoId, tagId: TagId): (s: Tables)
    requires photoId in t.photos && tagId in t.photos[photoId].tags
  {
    var p := t.photos[photoId];
    var photos := t.photos[photoId := p.(tags := RemoveFirst(p.tags, tagId))];
    t.(photos := photos, tags := if CarriedBySome(photos, tagId) then t.tags else t.tags - {tagId})
  }

  /** `delete_tag(photo_id, tag_id)`: login, the tag's 404, the photo's 404
      and the ownership check, in that order.  `list.remove` raises
      ValueError when the tag is not on the photo. */
  function DeleteTagSpec(t: Tables, cu: Principal, photoId: PhotoId, tagId: TagId): (Response, Tables)
    requires InSession(t, cu)
  {
    var g := Then(LoginRequired(cu), if tagId !in t.tags then Halt(Abort(404)) else OwnerGate(t, cu, photoId));
    if g.Halt? then (g.response, t)
    else if tagId !in t.photos[photoId].tags then (ServerError(ValueError("list.remove(x): x not in list")), t)
    else (Redirect(ShowPhoto(photoId, None)), DetachTag(t, photoId, tagId))
  }

  /** After a delete the photo no longer carries the tag and keeps its other
      tags; the tag row is deleted exactly when no photo carries the tag any
      more; other photos and other tags are untouched. */
  lemma DeleteTagEffect(t: Tables, photoId: PhotoId, tagId: TagId)
    requires ValidTables(t) && photoId in t.photos && tagId in t.photos[photoId].tags
    ensures var s := DetachTag(t, photoId, tagId);
      && s.photos.Keys == t.photos.Keys
      && tagId !in s.photos[photoId].tags
      && (forall y :: y != tagId ==> (y in s.photos[photoId].tags <==> y in t.photos[photoId].tags))
      && (forall q :: q in t.photos && q != photoId ==> s.photos[q] == t.photos[q])
      && (tagId in s.tags <==> exists q :: q in s.photos && tagId in s.photos[q].tags)
      && (forall k :: k in t.tags && k != tagId ==> k in s.tags && s.tags[k] == t.tags[k])
      && s == t.(photos := s.photos, tags := s.tags)
  {
    RemoveFirstDistinct(t.photos[photoId].tags, tagId);
  }

  lemma DetachTagValid(t: Tables, photoId: PhotoId, tagId: TagId)
    requires ValidTables(t) && photoId in t.photos && tagId in t.photos[photoId].tags
    ensures ValidTables(DetachTag(t, photoId, tagId))
  {
    var s := DetachTag(t, photoId, tagId);
    var list := t.photos[photoId].tags;
    RemoveFirstDistinct(list, tagId);
    forall q | q in s.photos
      ensures TagListValid(s.tags, s.photos[q].tags)
    {
      var l := s.photos[q].tags;
      if q == photoId {
        assert forall y :: y in l ==> y in list;
      } else {
        assert l == t.photos[q].tags;
      }
      forall i | 0 <= i < |l|
        ensures l[i] in s.tags
      {
        assert l[i] in t.tags;
        if l[i] == tagId {
          assert CarriedBySome(s.photos, tagId);
        }
      }
    }
    assert PhotosValid(s.photos, s.users, s.tags);
  }

  lemma DeleteTagValid(t: Tables, cu: Principal, photoId: PhotoId, tagId: TagId)
    requires ValidTables(t) && InSession(t, cu)
    ensures ValidTables(DeleteTagSpec(t, cu, photoId, tagId).1)
  {
    var (r, s) := DeleteTagSpec(t, cu, photoId, tagId);
    if s != t {
      DetachTagValid(t, photoId, tagId);
    }
  }

  /** `delete_tag(photo_id, tag_id)`. */
  method DeleteTag(db: Db, cu: Principal, photoId: PhotoId, tagId: TagId) returns (r: Response)
    requires InSession(db.Snapshot(), cu)
    modifies db
    ensures (r, db.Snapshot()) == DeleteTagSpec(old(db.Snapshot()), cu, photoId, tagId)
  {
    if cu.Guest? {
      return Redirect(Login);
    }
    if tagId !in db.tags {
      return Abort(404);
    }
    var g := OwnerGate(db.Snapshot(), cu, photoId);
    if g.Halt? {
      return g.response;
    }
    var photo := db.photos[photoId];
    if tagId !in photo.tags {
      return ServerError(ValueError("list.remove(x): x not in list"));
    }
    db.photos := db.photos[photoId := photo.(tags := RemoveFirst(photo.tags, tagId))];
    if !CarriedBySome(db.photos, tagId) {
      db.tags := db.tags - {tagId};
    }
    return Redirect(ShowPhoto(photoId, None));
  }

  // ---------------------------------------------------------------- ownership

  /** Someone who neither wrote the photo nor can MODERATE gets 403 from
      every editing view, and nothing changes. */
  lemma ForbiddenUnchanged(t: Tables, id: UserId, photoId: PhotoId, description: string, input: string, tagId: TagId)
    requires ValidTables(t) && id in t.users && photoId in t.photos && tagId in t.tags
    requires t.photos[photoId].author != id && !Can(t, t.users[id], "MODERATE")
    ensures EditDescriptionSpec(t, Member(id), photoId, description) == (Abort(403), t)
    ensures SetCommentSpec(t, Member(id), photoId) == (Abort(403), t)
    ensures DeletePhotoSpec(t, Member(id), photoId) == (Abort(403), t)
    ensures NewTagSpec(t, Member(id), photoId, input) == (Abort(403), t)
    ensures DeleteTagSpec(t, Member(id), photoId, tagId) == (Abort(403), t)
  {
    EditGateRule(t, id, photoId);
  }
}
