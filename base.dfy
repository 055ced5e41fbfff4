/** Values shared by the whole model: optional values, the exceptions a
    handler can raise, and the primary-key arithmetic of the tables. */
module Base {

  datatype Option<+T> = None | Some(value: T)

  /** The Python exceptions the modelled code can raise.  An exception that
      escapes a view becomes an HTTP 500 and the pending session is discarded. */
  datatype Fault =
    | AttributeError(attribute: string)
    | TypeError(reason: string)
    | ValueError(reason: string)
    | KeyError(key: int)

  datatype Result<+T> = Ok(value: T) | Err(fault: Fault)

  /** A least element of a non-empty finite set of keys, found by removing
      one key at a time. */
  ghost function LeastOf(s: set<nat>): (m: nat)
    requires s != {}
    ensures m in s && forall x :: x in s ==> m <= x
    decreases s
  {
    var y :| y in s;
    if s - {y} == {} then
      assert s == {y};
      y
    else
      var m := LeastOf(s - {y});
      assert forall x :: x in s ==> x == y || x in s - {y};
      if y < m then y else m
  }

  /** A greatest element of a non-empty finite set of keys. */
  ghost function GreatestOf(s: set<nat>): (m: nat)
    requires s != {}
    ensures m in s && forall x :: x in s ==> x <= m
    decreases s
  {
    var y :| y in s;
    if s - {y} == {} then
      assert s == {y};
      y
    else
      var m := GreatestOf(s - {y});
      assert forall x :: x in s ==> x == y || x in s - {y};
      if m < y then y else m
  }

  /** The smallest key of a set: what `query.order_by(id.asc()).first()`
      (and a plain `first()` over a table scanned in key order) returns. */
  function MinOf(s: set<nat>): (m: nat)
    requires s != {}
    ensures m in s
    ensures forall x :: x in s ==> m <= x
  {
    ghost var w := LeastOf(s);
    var m :| m in s && (forall x :: x in s ==> m <= x);
    m
  }

  /** The largest key of a set: what `order_by(id.desc()).first()` returns. */
  function MaxOf(s: set<nat>): (m: nat)
    requires s != {}
    ensures m in s
    ensures forall x :: x in s ==> x <= m
  {
    ghost var w := GreatestOf(s);
    var m :| m in s && (forall x :: x in s ==> x <= m);
    m
  }

  /** The primary key SQLite gives a new row: one more than the largest key
      in use, or 1 in an empty table. */
  function FreshId(keys: set<nat>): (r: nat)
    ensures r !in keys
    ensures 1 <= r
    ensures forall k :: k in keys ==> k < r
  {
    if keys == {} then 1 else MaxOf(keys) + 1
  }
}
