/** The pieces of Python's string and path library the core relies on:
    `str.isspace`/`str.strip`/`str.split()` whitespace, `os.path.splitext`
    (POSIX flavour), ASCII lower-casing, suffix and substring tests. */
module Text {

  /** The characters Python's `str.split()` and `str.strip()` treat as
      whitespace when called without arguments. */
  predicate IsSpace(c: char)
  {
    || ('\U{9}' <= c <= '\U{D}')
    || ('\U{1C}' <= c <= '\U{20}')
    || c == '\U{85}' || c == '\U{A0}' || c == '\U{1680}'
    || ('\U{2000}' <= c <= '\U{200A}')
    || c == '\U{2028}' || c == '\U{2029}' || c == '\U{202F}' || c == '\U{205F}'
    || c == '\U{3000}'
  }

  /** `s.strip() == ""`: the string is empty or holds only whitespace. */
  predicate Blank(s: string)
  {
    forall i :: 0 <= i < |s| ==> IsSpace(s[i])
  }

  /** A word of `str.split()`: non-empty and free of whitespace. */
  predicate IsWord(w: string)
  {
    w != [] && forall i :: 0 <= i < |w| ==> !IsSpace(w[i])
  }

  /** Length of the run of non-whitespace characters at the front of `s`. */
  function WordLength(s: string): (n: nat)
    requires s != [] && !IsSpace(s[0])
    ensures 1 <= n <= |s|
    ensures IsWord(s[..n])
    ensures n < |s| ==> IsSpace(s[n])
  {
    if |s| == 1 || IsSpace(s[1]) then 1 else 1 + WordLength(s[1..])
  }

  /** `s.split()`: the maximal runs of non-whitespace characters, in order. */
  function Split(s: string): (ws: seq<string>)
    ensures forall i :: 0 <= i < |ws| ==> IsWord(ws[i])
    decreases |s|
  {
    if s == [] then []
    else if IsSpace(s[0]) then Split(s[1..])
    else
      var n := WordLength(s);
      [s[..n]] + Split(s[n..])
  }

  /** The characters of `s` that are not whitespace, in order. */
  function NonSpace(s: string): string
  {
    if s == [] then [] else (if IsSpace(s[0]) then [] else [s[0]]) + NonSpace(s[1..])
  }

  function Concat(ws: seq<string>): string
  {
    if ws == [] then [] else ws[0] + Concat(ws[1..])
  }

  lemma {:induction false} NonSpaceOfWord(w: string)
    requires forall i :: 0 <= i < |w| ==> !IsSpace(w[i])
    ensures NonSpace(w) == w
  {
    if w != [] {
      NonSpaceOfWord(w[1..]);
    }
  }

  lemma {:induction false} NonSpaceAppend(a: string, b: string)
    ensures NonSpace(a + b) == NonSpace(a) + NonSpace(b)
  {
    if a == [] {
      assert a + b == b;
    } else {
      assert (a + b)[1..] == a[1..] + b;
      NonSpaceAppend(a[1..], b);
    }
  }

  /** Splitting loses exactly the whitespace: gluing the words back together
      gives the non-whitespace characters of the input, in order. */
  lemma {:induction false} SplitKeepsNonSpace(s: string)
    ensures Concat(Split(s)) == NonSpace(s)
    decreases |s|
  {
    if s == [] {
    } else if IsSpace(s[0]) {
      SplitKeepsNonSpace(s[1..]);
    } else {
      var n := WordLength(s);
      SplitKeepsNonSpace(s[n..]);
      assert s == s[..n] + s[n..];
      NonSpaceAppend(s[..n], s[n..]);
      NonSpaceOfWord(s[..n]);
      assert Split(s) == [s[..n]] + Split(s[n..]);
      assert Concat(Split(s)) == s[..n] + Concat(Split(s[n..]));
    }
  }

  /** A blank string splits into no words at all. */
  lemma {:induction false} SplitBlank(s: string)
    requires Blank(s)
    ensures Split(s) == []
    decreases |s|
  {
    if s != [] {
      SplitBlank(s[1..]);
    }
  }

  /** Every word of the split occurs in the input. */
  lemma {:induction false} SplitWordsOccur(s: string, k: nat)
    requires k < |Split(s)|
    ensures Contains(s, Split(s)[k])
    decreases |s|
  {
    if IsSpace(s[0]) {
      SplitWordsOccur(s[1..], k);
      var w := Split(s)[k];
      var i :| OccursAt(s[1..], w, i);
      assert s[i + 1..i + 1 + |w|] == w;
      assert OccursAt(s, w, i + 1);
    } else {
      var n := WordLength(s);
      if k == 0 {
        assert OccursAt(s, Split(s)[0], 0);
      } else {
        SplitWordsOccur(s[n..], k - 1);
        var w := Split(s)[k];
        var i :| OccursAt(s[n..], w, i);
        assert s[i + n..i + n + |w|] == w;
        assert OccursAt(s, w, i + n);
      }
    }
  }

  /** Index of the last occurrence of `c` in `s`, or -1 (Python's `rfind`). */
  function RFind(s: string, c: char): (r: int)
    ensures -1 <= r < |s|
    ensures r == -1 ==> c !in s
    ensures 0 <= r ==> s[r] == c && c !in s[r + 1..]
  {
    if s == [] then -1
    else if s[|s| - 1] == c then |s| - 1
    else
      var r := RFind(s[..|s| - 1], c);
      assert s[r + 1..] == s[..|s| - 1][r + 1..] + [s[|s| - 1]];
      r
  }

  lemma NotInSuffix(s: string, c: char, i: nat, j: nat)
    requires i <= j <= |s| && c !in s[i..]
    ensures c !in s[j..]
  {
    assert s[j..] == s[i..][j - i..];
  }

  predicate AllDots(s: string)
  {
    forall i :: 0 <= i < |s| ==> s[i] == '.'
  }

  /** `os.path.splitext` on a POSIX path: the extension starts at the last
      dot of the last path component, unless everything before that dot in
      the component is dots (a hidden file such as `.jpg` has none). */
  function SplitExt(p: string): (r: (string, string))
    ensures r.0 + r.1 == p
    ensures r.1 == [] || (r.1[0] == '.' && '.' !in r.1[1..] && '/' !in r.1)
  {
    var sep := RFind(p, '/');
    var dot := RFind(p, '.');
    if dot > sep && !AllDots(p[sep + 1..dot]) then
      ExtensionShape(p, sep, dot);
      (p[..dot], p[dot..])
    else
      (p, [])
  }

  lemma ExtensionShape(p: string, sep: int, dot: int)
    requires -1 <= sep < dot < |p|
    requires p[dot] == '.' && '.' !in p[dot + 1..] && '/' !in p[sep + 1..]
    ensures p[..dot] + p[dot..] == p
    ensures p[dot..][0] == '.' && '.' !in p[dot..][1..] && '/' !in p[dot..]
  {
    assert p[dot..][1..] == p[dot + 1..];
    NotInSuffix(p, '/', sep + 1, dot);
  }

  lemma {:induction false} RFindAppend(a: string, b: string, c: char)
    requires c !in b
    ensures RFind(a + b, c) == RFind(a, c)
    decreases |b|
  {
    if b == [] {
      assert a + b == a;
    } else {
      assert (a + b)[..|a + b| - 1] == a + b[..|b| - 1];
      RFindAppend(a, b[..|b| - 1], c);
    }
  }

  lemma RFindAt(a: string, b: string, c: char)
    requires b != [] && b[0] == c && c !in b[1..]
    ensures RFind(a + b, c) == |a|
  {
    assert a + b == (a + [c]) + b[1..];
    RFindAppend(a + [c], b[1..], c);
  }

  lemma NotAllDotsExtend(x: string, y: string)
    requires !AllDots(x)
    ensures !AllDots(x + y)
  {
    var i :| 0 <= i < |x| && x[i] != '.';
    assert (x + y)[i] == x[i];
  }

  lemma InsertWithoutExt(p: string, mid: string)
    requires '.' !in mid && '/' !in mid
    requires SplitExt(p).1 == []
    ensures SplitExt(p + mid) == (p + mid, [])
  {
    var q := p + mid;
    var sep := RFind(p, '/');
    var dot := RFind(p, '.');
    RFindAppend(p, mid, '/');
    RFindAppend(p, mid, '.');
    if dot > sep {
      assert q[sep + 1..dot] == p[sep + 1..dot];
    }
  }

  lemma SplitExtAt(q: string, sep: int, dot: int)
    requires RFind(q, '/') == sep && RFind(q, '.') == dot
    requires dot > sep && !AllDots(q[sep + 1..dot])
    ensures SplitExt(q) == (q[..dot], q[dot..])
  {
  }

  lemma InsertBeforeExt(root: string, mid: string, ext: string, sep: int)
    requires '.' !in mid && '/' !in mid
    requires ext != [] && ext[0] == '.' && '.' !in ext[1..] && '/' !in ext
    requires sep == RFind(root, '/') && !AllDots(root[sep + 1..])
    ensures SplitExt(root + mid + ext) == (root + mid, ext)
  {
    var q := (root + mid) + ext;
    var dot := |root| + |mid|;
    assert RFind(q, '.') == dot by {
      RFindAt(root + mid, ext, '.');
    }
    assert RFind(q, '/') == sep by {
      RFindAppend(root + mid, ext, '/');
      RFindAppend(root, mid, '/');
    }
    assert !AllDots(q[sep + 1..dot]) by {
      assert q[sep + 1..dot] == root[sep + 1..] + mid;
      NotAllDotsExtend(root[sep + 1..], mid);
    }
    SplitExtAt(q, sep, dot);
    assert q[..dot] == root + mid;
    assert q[dot..] == ext;
  }

  /** Inserting text free of dots and slashes between a path's root and its
      extension leaves the extension where it was. */
  lemma SplitExtInsert(p: string, mid: string)
    requires '.' !in mid && '/' !in mid
    ensures SplitExt(SplitExt(p).0 + mid + SplitExt(p).1) == (SplitExt(p).0 + mid, SplitExt(p).1)
  {
    var root, ext := SplitExt(p).0, SplitExt(p).1;
    if ext == [] {
      assert root == p;
      InsertWithoutExt(p, mid);
    } else {
      var sep := RFind(p, '/');
      var dot := RFind(p, '.');
      assert root == p[..dot] && ext == p[dot..];
      assert p == root + ext;
      RFindAppend(root, ext, '/');
      assert root[sep + 1..] == p[sep + 1..dot];
      InsertBeforeExt(root, mid, ext, sep);
    }
  }

  /** A new stem made only of characters other than dots and slashes keeps
      the extension of the name it replaces. */
  lemma SplitExtNewStem(stem: string, p: string)
    requires stem != [] && '.' !in stem && '/' !in stem
    ensures SplitExt(stem + SplitExt(p).1).1 == SplitExt(p).1
  {
    var ext := SplitExt(p).1;
    var q := stem + ext;
    if ext == [] {
      assert q == stem;
    } else {
      RFindAt(stem, ext, '.');
      RFindAppend(stem, ext, '/');
      assert q[0..|stem|] == stem;
      assert q[0] != '.';
      assert q[..|stem|] == stem && q[|stem|..] == ext;
    }
  }

  /** ASCII lower-casing (Python's `str.lower` on ASCII input). */
  function Lower(s: string): (r: string)
    ensures |r| == |s|
  {
    if s == [] then [] else [LowerChar(s[0])] + Lower(s[1..])
  }

  /** `Lower` works character by character. */
  lemma {:induction false} LowerAt(s: string, i: nat)
    requires i < |s|
    ensures Lower(s)[i] == LowerChar(s[i])
  {
    if i > 0 {
      LowerAt(s[1..], i - 1);
    }
  }

  /** Lower-casing a concatenation lower-cases both parts. */
  lemma {:induction false} LowerAppend(a: string, b: string)
    ensures Lower(a + b) == Lower(a) + Lower(b)
  {
    if a == [] {
      assert a + b == b;
    } else {
      assert (a + b)[1..] == a[1..] + b;
      LowerAppend(a[1..], b);
      assert Lower(a + b) == [LowerChar(a[0])] + Lower(a[1..] + b);
    }
  }

  function LowerChar(c: char): char
  {
    if 'A' <= c <= 'Z' then (c as int + 32) as char else c
  }

  predicate EndsWith(s: string, suffix: string)
  {
    |suffix| <= |s| && s[|s| - |suffix|..] == suffix
  }

  predicate OccursAt(s: string, sub: string, i: int)
  {
    0 <= i && i + |sub| <= |s| && s[i..i + |sub|] == sub
  }

  ghost predicate Contains(s: string, sub: string)
  {
    exists i :: OccursAt(s, sub, i)
  }

  predicate IsAsciiAlnum(c: char)
  {
    ('a' <= c <= 'z') || ('A' <= c <= 'Z') || ('0' <= c <= '9')
  }

  predicate AllAlnum(s: string)
  {
    forall i :: 0 <= i < |s| ==> IsAsciiAlnum(s[i])
  }
}
