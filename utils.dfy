/** `generate_token`, `validate_token`, `rename_image`, the file-name rule of
    `resize_image`, and `redirect_back`. */
module Utils {
  import opened Base
  import opened Text
  import opened Http
  import opened Models
  import opened Decorators

  // ---------------------------------------------------------------- tokens

  /** A JSON value in a token payload. */
  datatype Value = IntVal(i: int) | StrVal(s: string) | NullVal

  type Payload = map<string, Value>

  /** The operation names of `Operations` in the application settings. */
  const CONFIRM: string := "confirm"
  const RESET_PASSWORD: string := "reset-password"
  const CHANGE_EMAIL: string := "change-email"

  /** The data `generate_token` signs: the user's id and the operation, then
      `dict.update` with the keyword arguments.  `operation` is a named
      parameter, so no keyword argument can carry that name (Python refuses
      the call); only `id` can be overridden by one. */
  function TokenPayload(uid: UserId, operation: string, extra: Payload): (d: Payload)
    requires "operation" !in extra
    ensures forall k :: k in extra ==> k in d && d[k] == extra[k]
    ensures "id" !in extra ==> "id" in d && d["id"] == IntVal(uid)
    ensures "operation" in d && d["operation"] == StrVal(operation)
    ensures d.Keys == extra.Keys + {"id", "operation"}
  {
    map["id" := IntVal(uid), "operation" := StrVal(operation)] + extra
  }

  /** The checks at the top of `validate_token`: `data.get('operation')` and
      `data.get('id')` equal the operation and the user's id. */
  predicate PayloadMatches(data: Payload, uid: UserId, operation: string)
  {
    && "operation" in data && data["operation"] == StrVal(operation)
    && "id" in data && data["id"] == IntVal(uid)
  }

  /** A token generated for a user and an operation passes those checks for
      the same user and operation, unless an `id` keyword argument overrode
      the user's id. */
  lemma GeneratedTokenMatches(uid: UserId, operation: string, extra: Payload)
    requires "id" !in extra && "operation" !in extra
    ensures PayloadMatches(TokenPayload(uid, operation, extra), uid, operation)
    ensures forall u, op :: PayloadMatches(TokenPayload(uid, operation, extra), u, op) ==> u == uid && op == operation
  {
  }

  /** What `validate_token` answers, and the user row it writes back, if
      any.  `decoded` is what `Serializer.loads` produced: None when the
      signature is bad or the token expired.  `newPassword` is the optional
      argument. */
  function TokenOutcome(t: Tables, uid: UserId, decoded: Option<Payload>, operation: string,
                        newPassword: Option<string>): (Result<bool>, Option<User>)
    requires uid in t.users
  {
    var u := t.users[uid];
    if decoded.None? then (Ok(false), None)
    else if !PayloadMatches(decoded.value, uid, operation) then (Ok(false), None)
    else if operation == CONFIRM then (Ok(true), Some(u.(confirmed := true)))
    else if operation == RESET_PASSWORD then
      if newPassword.None? then (Err(TypeError("Password must be a string")), None)
      else (Ok(true), Some(u.(password := newPassword.value)))
    else if operation == CHANGE_EMAIL then
      var data := decoded.value;
      if "new_email" !in data || data["new_email"] == NullVal then (Ok(false), None)
      else if !data["new_email"].StrVal? then (Ok(false), None)
      else if EmailInUse(t.users, data["new_email"].s) then (Ok(false), None)
      else (Ok(true), Some(u.(email := data["new_email"].s)))
    else (Ok(false), None)
  }

  /** What `validate_token` answers and the tables it leaves. */
  function ValidateTokenSpec(t: Tables, uid: UserId, decoded: Option<Payload>, operation: string,
                             newPassword: Option<string>): (Result<bool>, Tables)
    requires uid in t.users
  {
    var (r, row) := TokenOutcome(t, uid, decoded, operation, newPassword);
    (r, if row.Some? then SetUser(t, uid, row.value) else t)
  }

  /** A token that does not decode, or that names another operation or
      another user, is refused and changes nothing. */
  lemma TokenRefusedUnchanged(t: Tables, uid: UserId, decoded: Option<Payload>, operation: string, newPassword: Option<string>)
    requires uid in t.users
    requires decoded.None? || !PayloadMatches(decoded.value, uid, operation)
    ensures ValidateTokenSpec(t, uid, decoded, operation, newPassword) == (Ok(false), t)
  {
  }

  /** On an accepted token exactly one column of the user's row changes:
      `confirmed` for CONFIRM, the password for RESET_PASSWORD, the email for
      CHANGE_EMAIL; any other operation is refused. */
  lemma TokenAcceptedEffect(t: Tables, uid: UserId, data: Payload, operation: string, newPassword: Option<string>)
    requires uid in t.users && PayloadMatches(data, uid, operation)
    ensures var (r, s) := ValidateTokenSpec(t, uid, Some(data), operation, newPassword);
      var u := t.users[uid];
      && (r == Ok(true) ==>
            && s == t.(users := s.users) && s.users.Keys == t.users.Keys
            && (forall v :: v in t.users && v != uid ==> s.users[v] == t.users[v]))
      && (operation == CONFIRM ==> r == Ok(true) && s.users[uid] == u.(confirmed := true))
      && (operation == RESET_PASSWORD && newPassword.Some? ==> r == Ok(true) && s.users[uid] == u.(password := newPassword.value))
      && (operation == RESET_PASSWORD && newPassword.None? ==> r.Err? && s == t)
      && (operation !in {CONFIRM, RESET_PASSWORD, CHANGE_EMAIL} ==> r == Ok(false) && s == t)
  {
  }

  /** CHANGE_EMAIL succeeds exactly when the payload carries a new address
      that no user (the requester included) has yet, and then sets it. */
  lemma ChangeEmailRule(t: Tables, uid: UserId, data: Payload, newPassword: Option<string>)
    requires uid in t.users && PayloadMatches(data, uid, CHANGE_EMAIL)
    ensures var (r, s) := ValidateTokenSpec(t, uid, Some(data), CHANGE_EMAIL, newPassword);
      && r.Ok?
      && (r.value <==> "new_email" in data && data["new_email"].StrVal? && !EmailInUse(t.users, data["new_email"].s))
      && (!r.value ==> s == t)
      && (r.value ==> s == SetUser(t, uid, t.users[uid].(email := data["new_email"].s)))
  {
  }

  /** The row `validate_token` writes keeps the user's name and role, and
      carries either the old address or one no user has. */
  lemma TokenRowShape(t: Tables, uid: UserId, decoded: Option<Payload>, operation: string, newPassword: Option<string>)
    requires uid in t.users
    ensures var row := TokenOutcome(t, uid, decoded, operation, newPassword).1;
      row.Some? ==>
        && row.value.username == t.users[uid].username && row.value.role == t.users[uid].role
        && (row.value.email == t.users[uid].email || !EmailInUse(t.users, row.value.email))
  {
    var u := t.users[uid];
    if decoded.None? || !PayloadMatches(decoded.value, uid, operation) {
    } else if operation == CONFIRM {
    } else if operation == RESET_PASSWORD {
    } else if operation == CHANGE_EMAIL {
    }
  }

  /** `validate_token` keeps the database consistent: an address is only
      taken over when no user has it. */
  lemma ValidateTokenValid(t: Tables, uid: UserId, decoded: Option<Payload>, operation: string, newPassword: Option<string>)
    requires ValidTables(t) && uid in t.users
    ensures ValidTables(ValidateTokenSpec(t, uid, decoded, operation, newPassword).1)
  {
    var row := TokenOutcome(t, uid, decoded, operation, newPassword).1;
    TokenRowShape(t, uid, decoded, operation, newPassword);
    if row.Some? {
      ValidSetUser(t, uid, row.value);
    }
  }

  /** `validate_token(user, token, operation, new_password)` after the token
      has been decoded. */
  method ValidateToken(db: Db, uid: UserId, decoded: Option<Payload>, operation: string, newPassword: Option<string>)
    returns (r: Result<bool>)
    requires db.Valid() && uid in db.users
    modifies db
    ensures db.Valid()
    ensures (r, db.Snapshot()) == ValidateTokenSpec(old(db.Snapshot()), uid, decoded, operation, newPassword)
  {
    ValidateTokenValid(db.Snapshot(), uid, decoded, operation, newPassword);
    if decoded.None? {
      return Ok(false);
    }
    var data := decoded.value;
    if !("operation" in data && data["operation"] == StrVal(operation)) || !("id" in data && data["id"] == IntVal(uid)) {
      return Ok(false);
    }
    if operation == CONFIRM {
      db.users := db.users[uid := db.users[uid].(confirmed := true)];
    } else if operation == RESET_PASSWORD {
      if newPassword.None? {
        return Err(TypeError("Password must be a string"));
      }
      db.users := db.users[uid := db.users[uid].(password := newPassword.value)];
    } else if operation == CHANGE_EMAIL {
      if "new_email" !in data || data["new_email"] == NullVal {
        return Ok(false);
      }
      if !data["new_email"].StrVal? {
        return Ok(false);
      }
      var newEmail := data["new_email"].s;
      if EmailInUse(db.users, newEmail) {
        return Ok(false);
      }
      db.users := db.users[uid := db.users[uid].(email := newEmail)];
    } else {
      return Ok(false);
    }
    return Ok(true);
  }

  // ---------------------------------------------------------------- file names

  predicate IsHexDigit(c: char)
  {
    ('0' <= c <= '9') || ('a' <= c <= 'f')
  }

  /** `uuid.uuid4().hex`: 32 lower-case hexadecimal digits. */
  predicate IsUuidHex(hex: string)
  {
    |hex| == 32 && forall i :: 0 <= i < |hex| ==> IsHexDigit(hex[i])
  }

  /** `rename_image`: a random stem, then the old name's extension. */
  function RenameImage(oldFilename: string, hex: string): (r: string)
    requires IsUuidHex(hex)
    ensures |r| >= 32 && r[..32] == hex
  {
    hex + SplitExt(oldFilename).1
  }

  /** The new name keeps the extension of the old one. */
  lemma RenameKeepsExtension(oldFilename: string, hex: string)
    requires IsUuidHex(hex)
    ensures SplitExt(RenameImage(oldFilename, hex)).1 == SplitExt(oldFilename).1
  {
    assert '.' !in hex && '/' !in hex by {
      assert forall i :: 0 <= i < |hex| ==> hex[i] != '.' && hex[i] != '/';
    }
    SplitExtNewStem(hex, oldFilename);
  }

  /** The name `resize_image` returns for an image `width` pixels wide; the
      suffix table is the `ALBUMY_PHOTO_SUFFIX` setting, and a width missing
      from it raises KeyError. */
  function ResizedName(filename: string, width: int, baseWidth: int, suffixes: map<int, string>): (r: Result<string>)
    ensures width <= baseWidth ==> r == Ok(filename)
    ensures r.Err? <==> width > baseWidth && baseWidth !in suffixes
  {
    var (stem, ext) := SplitExt(filename);
    if width <= baseWidth then Ok(stem + ext)
    else if baseWidth !in suffixes then Err(KeyError(baseWidth))
    else Ok(stem + suffixes[baseWidth] + ext)
  }

  /** A resized name is the old stem, then the suffix, then the old
      extension; with a suffix free of dots and slashes the extension is
      still the extension of the new name. */
  lemma ResizeKeepsExtension(filename: string, width: int, baseWidth: int, suffixes: map<int, string>)
    requires width > baseWidth && baseWidth in suffixes
    requires '.' !in suffixes[baseWidth] && '/' !in suffixes[baseWidth]
    ensures var r := ResizedName(filename, width, baseWidth, suffixes);
      && r.Ok?
      && r.value == SplitExt(filename).0 + suffixes[baseWidth] + SplitExt(filename).1
      && SplitExt(r.value) == (SplitExt(filename).0 + suffixes[baseWidth], SplitExt(filename).1)
  {
    SplitExtInsert(filename, suffixes[baseWidth]);
  }

  // ---------------------------------------------------------------- redirects

  /** The first candidate that is present, non-empty and safe. */
  function FirstSafe(candidates: seq<Option<string>>, isSafe: string -> bool): (r: Option<nat>)
    ensures r.Some? ==>
      && r.value < |candidates| && candidates[r.value].Some?
      && candidates[r.value].value != [] && isSafe(candidates[r.value].value)
    ensures r.Some? ==> forall j :: 0 <= j < r.value ==>
      candidates[j].None? || candidates[j].value == [] || !isSafe(candidates[j].value)
    ensures r.None? ==> forall j :: 0 <= j < |candidates| ==>
      candidates[j].None? || candidates[j].value == [] || !isSafe(candidates[j].value)
  {
    if candidates == [] then None
    else if candidates[0].Some? && candidates[0].value != [] && isSafe(candidates[0].value) then Some(0)
    else match FirstSafe(candidates[1..], isSafe)
      case None => None
      case Some(k) => Some(k + 1)
  }

  /** Where `redirect_back` sends the browser: the first safe candidate
      among `next` and the referrer, else `default`. */
  function BackTarget(next: Option<string>, referrer: Option<string>, isSafe: string -> bool, default: Endpoint): (e: Endpoint)
    ensures e != default ==> e.Target? && e.url != [] && isSafe(e.url)
    ensures e.Target? && e != default ==> (next.Some? && e.url == next.value) || (referrer.Some? && e.url == referrer.value)
  {
    match FirstSafe([next, referrer], isSafe)
    case None => default
    case Some(k) => Target([next, referrer][k].value)
  }

  /** `redirect_back`: the `next` argument, then the referrer; the first that
      is non-empty and safe is the target, else the default endpoint.
      `is_safe_url` is given as `isSafe`. */
  method RedirectBack(next: Option<string>, referrer: Option<string>, isSafe: string -> bool, default: Endpoint)
    returns (r: Response)
    ensures r == Redirect(BackTarget(next, referrer, isSafe, default))
    ensures r.to != default ==> r.to.Target? && r.to.url != [] && isSafe(r.to.url)
    ensures (next.Some? && next.value != [] && isSafe(next.value)) ==> r == Redirect(Target(next.value))
    ensures !(next.Some? && next.value != [] && isSafe(next.value)) && referrer.Some? && referrer.value != [] && isSafe(referrer.value)
      ==> r == Redirect(Target(referrer.value))
    ensures !(next.Some? && next.value != [] && isSafe(next.value)) && !(referrer.Some? && referrer.value != [] && isSafe(referrer.value))
      ==> r == Redirect(default)
  {
    var candidates := [next, referrer];
    var i := 0;
    while i < |candidates|
      invariant 0 <= i <= |candidates|
      invariant candidates == [next, referrer]
      invariant i >= 1 ==> next.None? || next.value == [] || !isSafe(next.value)
      invariant i >= 2 ==> referrer.None? || referrer.value == [] || !isSafe(referrer.value)
    {
      var target := candidates[i];
      if target.None? || target.value == [] {
        i := i + 1;
        continue;
      }
      if isSafe(target.value) {
        return Redirect(Target(target.value));
      }
      i := i + 1;
    }
    return Redirect(default);
  }
}
