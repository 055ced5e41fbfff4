/** The WTForms field validators the forms declare, and how a field's chain
    of validators decides.  `Email()`, `URL()` and the inline
    `validate_<field>` hooks enter as the outcome they produce. */
module Validators {
  import opened Text

  datatype Check =
    | DataRequired            // the data is non-empty after `str.strip()`; stops the chain otherwise
    | Optional                // blank data ends the chain with the field valid
    | Length(min: int, max: int)  // max == -1 means no upper bound
    | AlnumRegexp             // Regexp('^[a-zA-Z0-9]*$')
    | EqualTo(other: string)  // equal to the other field's data
    | Outcome(ok: bool)       // a validator given by its result

  /** Python's `re.match('^[a-zA-Z0-9]*$', s)`: without MULTILINE, `$` matches
      at the very end and also just before a final newline. */
  predicate AlnumRegexpMatch(s: string)
  {
    AllAlnum(s) || (|s| > 0 && s[|s| - 1] == '\n' && AllAlnum(s[..|s| - 1]))
  }

  /** A non-stopping check on the data. */
  predicate Passes(c: Check, data: string)
  {
    match c
    case DataRequired => !Blank(data)
    case Optional => true
    case Length(min, max) => min <= |data| && (max == -1 || |data| <= max)
    case AlnumRegexp => AlnumRegexpMatch(data)
    case EqualTo(other) => data == other
    case Outcome(ok) => ok
  }

  /** `Field.validate`: run the chain in order; DataRequired on blank data
      and any failing check leave an error, Optional on blank data stops the
      chain with no error. */
  predicate FieldValid(checks: seq<Check>, data: string)
    decreases |checks|
  {
    if checks == [] then true
    else if checks[0] == Optional then Blank(data) || FieldValid(checks[1..], data)
    else Passes(checks[0], data) && FieldValid(checks[1..], data)
  }

  /** A chain without Optional accepts exactly the data every check accepts. */
  lemma {:induction false} ChainWithoutOptional(checks: seq<Check>, data: string)
    requires forall i :: 0 <= i < |checks| ==> checks[i] != Optional
    ensures FieldValid(checks, data) <==> forall i :: 0 <= i < |checks| ==> Passes(checks[i], data)
    decreases |checks|
  {
    if checks != [] {
      ChainWithoutOptional(checks[1..], data);
      assert forall i :: 1 <= i < |checks| ==> checks[i] == checks[1..][i - 1];
    }
  }

  /** A chain led by Optional accepts blank data, and otherwise what the rest
      of the chain accepts. */
  lemma OptionalFirst(rest: seq<Check>, data: string)
    ensures FieldValid([Optional] + rest, data) <==> Blank(data) || FieldValid(rest, data)
  {
    assert ([Optional] + rest)[1..] == rest;
  }

  /** The chains the forms declare, unfolded. */
  lemma Chain1(a: Check, data: string)
    requires a != Optional
    ensures FieldValid([a], data) <==> Passes(a, data)
  {
    assert [a][1..] == [];
  }

  lemma Chain2(a: Check, b: Check, data: string)
    requires a != Optional && b != Optional
    ensures FieldValid([a, b], data) <==> Passes(a, data) && Passes(b, data)
  {
    assert [a, b][1..] == [b];
    Chain1(b, data);
  }

  lemma Chain3(a: Check, b: Check, c: Check, data: string)
    requires a != Optional && b != Optional && c != Optional
    ensures FieldValid([a, b, c], data) <==> Passes(a, data) && Passes(b, data) && Passes(c, data)
  {
    assert [a, b, c][1..] == [b, c];
    Chain2(b, c, data);
  }

  lemma Chain4(a: Check, b: Check, c: Check, d: Check, data: string)
    requires a != Optional && b != Optional && c != Optional && d != Optional
    ensures FieldValid([a, b, c, d], data) <==> Passes(a, data) && Passes(b, data) && Passes(c, data) && Passes(d, data)
  {
    assert [a, b, c, d][1..] == [b, c, d];
    Chain3(b, c, d, data);
  }

  lemma OptionalChain1(a: Check, data: string)
    requires a != Optional
    ensures FieldValid([Optional, a], data) <==> Blank(data) || Passes(a, data)
  {
    assert [Optional, a][1..] == [a];
    Chain1(a, data);
  }

  lemma OptionalChain2(a: Check, b: Check, data: string)
    requires a != Optional && b != Optional
    ensures FieldValid([Optional, a, b], data) <==> Blank(data) || (Passes(a, data) && Passes(b, data))
  {
    assert [Optional, a, b][1..] == [a, b];
    Chain2(a, b, data);
  }

  /** The regular expression lets exactly the ASCII alphanumeric strings
      through, plus those followed by one newline. */
  lemma AlnumRegexpShape(s: string)
    ensures AlnumRegexpMatch(s) <==> AllAlnum(s) || exists w :: AllAlnum(w) && s == w + "\n"
  {
    if |s| > 0 && s[|s| - 1] == '\n' {
      assert s == s[..|s| - 1] + "\n";
    }
    forall w | AllAlnum(w) && s == w + "\n"
      ensures AlnumRegexpMatch(s)
    {
      assert s[..|s| - 1] == w;
    }
  }

  /** The input that shows it: "bob\n" matches although it holds a newline. */
  lemma AlnumRegexpAcceptsNewline()
    ensures AlnumRegexpMatch("bob\n") && !AllAlnum("bob\n")
  {
    assert "bob\n"[..3] == "bob";
    assert "bob\n"[3] == '\n';
  }

  /** The evidently intended check, `fullmatch('[a-zA-Z0-9]*')`: only ASCII
      letters and digits. */
  predicate AlnumOnly(s: string)
  {
    AllAlnum(s)
  }

  /** The intended check is the regular expression without the newline
      loophole: it accepts exactly the matches that end in no newline. */
  lemma AlnumOnlyIsRegexpWithoutNewline(s: string)
    ensures AlnumOnly(s) <==> AlnumRegexpMatch(s) && (|s| == 0 || s[|s| - 1] != '\n')
    ensures AlnumOnly(s) ==> forall i :: 0 <= i < |s| ==> s[i] != '\n'
  {
  }
}
