/** Shared vocabulary of the services: optional values, results carrying a
    `meh` error code, identifiers, timestamps and the textual parsers that the
    HTTP handlers apply to query parameters. */
module Common {

  /** A nullable value (`uuid.NullUUID`, `nulls.String`, a nil pointer). */
  datatype Option<+T> = None | Some(value: T)

  /** The error kinds of the `meh` library that the services produce. */
  datatype ErrorCode = BadInput | Forbidden | NotFound | Internal | Unauthorized

  /** A value or the error code of the failure that prevented it. */
  datatype Result<+T> = Ok(value: T) | Err(code: ErrorCode) {
    predicate IsFailure() { Err? }

    function PropagateFailure<U>(): Result<U>
      requires Err?
    {
      Err(code)
    }

    function Extract(): T
      requires Ok?
    {
      value
    }
  }

  /** What a handler does with a request that passed its checks: answer
      with the validation report, or go on with the accepted value. */
  datatype Decision<T> = Invalid(report: seq<string>) | Accepted(value: T)

  /** Timestamps and durations are integer clock ticks. */
  type Time = int

  // ---------------------------------------------------------------------------
  // Identifiers

  predicate IsLowerHex(c: char) {
    ('0' <= c <= '9') || ('a' <= c <= 'f')
  }

  predicate IsHex(c: char) {
    IsLowerHex(c) || ('A' <= c <= 'F')
  }

  /** Positions of the four hyphens in the 8-4-4-4-12 textual form. */
  predicate IsHyphenPos(i: int) {
    i == 8 || i == 13 || i == 18 || i == 23
  }

  /** The canonical textual form of a UUID, as `uuid.UUID.String` prints it. */
  predicate IsCanonicalUuid(s: string) {
    |s| == 36 &&
    forall i :: 0 <= i < |s| ==> (if IsHyphenPos(i) then s[i] == '-' else IsLowerHex(s[i]))
  }

  /** An entity identifier. Identifiers are compared for equality only; the
      text is what `String()` returns and what is written into keys and
      search documents. */
  type Id = s: string | IsCanonicalUuid(s) witness "00000000-0000-0000-0000-000000000000"

  /** `uuid.Nil`, the zero value of an identifier; also what a record
      carries before the store assigns its id. */
  const NilId: Id := "00000000-0000-0000-0000-000000000000"

  /** Fixed identifiers for concrete scenarios. */
  const IdA: Id := "00000000-0000-0000-0000-00000000000a"
  const IdB: Id := "00000000-0000-0000-0000-00000000000b"
  const IdC: Id := "00000000-0000-0000-0000-00000000000c"

  function LowerHex(c: char): (r: char)
    requires IsHex(c)
    ensures IsLowerHex(r)
    ensures IsLowerHex(c) ==> r == c
  {
    if 'A' <= c <= 'F' then (c as int - 'A' as int + 'a' as int) as char else c
  }

  predicate IsUuidText(s: string) {
    |s| == 36 &&
    forall i :: 0 <= i < |s| ==> (if IsHyphenPos(i) then s[i] == '-' else IsHex(s[i]))
  }

  /** `uuid.FromString` on the 8-4-4-4-12 form: hex digits of either case are
      accepted and the identifier is their canonical lower-case form. */
  function ParseUuid(s: string): (r: Option<Id>)
    ensures r.Some? <==> IsUuidText(s)
    ensures r.Some? ==> |r.value| == |s|
  {
    if IsUuidText(s) then
      var t := seq(|s|, i requires 0 <= i < |s| => if IsHyphenPos(i) then '-' else LowerHex(s[i]));
      Some(t)
    else
      None
  }

  /** Printing an identifier and parsing it back gives the identifier. */
  lemma ParseUuidOfId(id: Id)
    ensures ParseUuid(id) == Some(id)
  {
    assert IsUuidText(id) by {
      forall i | 0 <= i < |id|
        ensures if IsHyphenPos(i) then id[i] == '-' else IsHex(id[i])
      {
        assert if IsHyphenPos(i) then id[i] == '-' else IsLowerHex(id[i]);
      }
    }
    var t := seq(|id|, i requires 0 <= i < |id| => if IsHyphenPos(i) then '-' else LowerHex(id[i]));
    forall i | 0 <= i < |id|
      ensures t[i] == id[i]
    {
      assert if IsHyphenPos(i) then id[i] == '-' else IsLowerHex(id[i]);
    }
    assert t == id;
  }

  // ---------------------------------------------------------------------------
  // Scalars

  /** `strconv.ParseBool`. */
  function ParseBool(s: string): (r: Option<bool>)
    ensures r == Some(true) <==> s in {"1", "t", "T", "TRUE", "true", "True"}
    ensures r == Some(false) <==> s in {"0", "f", "F", "FALSE", "false", "False"}
  {
    if s in {"1", "t", "T", "TRUE", "true", "True"} then Some(true)
    else if s in {"0", "f", "F", "FALSE", "false", "False"} then Some(false)
    else None
  }

  /** `strconv.FormatBool`. */
  function FormatBool(b: bool): string {
    if b then "true" else "false"
  }

  lemma ParseFormatBool(b: bool)
    ensures ParseBool(FormatBool(b)) == Some(b)
  {
  }

  predicate IsDigit(c: char) {
    '0' <= c <= '9'
  }

  function DigitValue(c: char): (r: nat)
    requires IsDigit(c)
    ensures r < 10
  {
    c as int - '0' as int
  }

  function DigitsValue(s: string): nat
    requires forall i :: 0 <= i < |s| ==> IsDigit(s[i])
  {
    if |s| == 0 then 0 else DigitsValue(s[..|s| - 1]) * 10 + DigitValue(s[|s| - 1])
  }

  predicate AllDigits(s: string) {
    |s| > 0 && forall i :: 0 <= i < |s| ==> IsDigit(s[i])
  }

  /** `strconv.Atoi` on decimal text with an optional sign. */
  function ParseInt(s: string): (r: Option<int>)
    ensures r.Some? <==> (AllDigits(s) || (|s| > 1 && (s[0] == '+' || s[0] == '-') && AllDigits(s[1..])))
    ensures r.Some? && |s| > 0 && s[0] == '-' ==> r.value <= 0
    ensures r.Some? && |s| > 0 && s[0] != '-' ==> r.value >= 0
  {
    if AllDigits(s) then Some(DigitsValue(s))
    else if |s| > 1 && s[0] == '+' && AllDigits(s[1..]) then Some(DigitsValue(s[1..]))
    else if |s| > 1 && s[0] == '-' && AllDigits(s[1..]) then Some(0 - DigitsValue(s[1..]))
    else None
  }

  // ---------------------------------------------------------------------------
  // Sequence helpers

  predicate NoDuplicates<T(==)>(s: seq<T>) {
    forall i, j :: 0 <= i < j < |s| ==> s[i] != s[j]
  }

  /** The elements of `s` that satisfy `p`, in their original order. */
  function Filter<T>(p: T -> bool, s: seq<T>): (r: seq<T>)
    ensures |r| <= |s|
    ensures forall i :: 0 <= i < |r| ==> r[i] in s && p(r[i])
    ensures forall i :: 0 <= i < |s| && p(s[i]) ==> s[i] in r
  {
    if |s| == 0 then []
    else if p(s[0]) then [s[0]] + Filter(p, s[1..])
    else Filter(p, s[1..])
  }

  /** Filtering distributes over concatenation. */
  lemma {:induction false} FilterConcat<T>(p: T -> bool, a: seq<T>, b: seq<T>)
    ensures Filter(p, a + b) == Filter(p, a) + Filter(p, b)
  {
    if |a| > 0 {
      assert (a + b)[1..] == a[1..] + b;
      FilterConcat(p, a[1..], b);
    } else {
      assert a + b == b;
    }
  }

  /** A list whose elements all pass is its own filtering; one whose
      elements all fail filters to nothing. */
  lemma {:induction false} FilterAllOrNone<T>(p: T -> bool, s: seq<T>)
    ensures (forall i :: 0 <= i < |s| ==> p(s[i])) ==> Filter(p, s) == s
    ensures (forall i :: 0 <= i < |s| ==> !p(s[i])) ==> Filter(p, s) == []
  {
    if |s| > 0 {
      FilterAllOrNone(p, s[1..]);
      assert forall i :: 1 <= i < |s| ==> s[1..][i - 1] == s[i];
      if forall i :: 0 <= i < |s| ==> p(s[i]) {
        assert forall i :: 0 <= i < |s[1..]| ==> p(s[1..][i]);
        assert [s[0]] + s[1..] == s;
      }
      if forall i :: 0 <= i < |s| ==> !p(s[i]) {
        assert forall i :: 0 <= i < |s[1..]| ==> !p(s[1..][i]);
      }
    }
  }

  function Map<T, U>(f: T -> U, s: seq<T>): (r: seq<U>)
    ensures |r| == |s|
    ensures forall i :: 0 <= i < |s| ==> r[i] == f(s[i])
  {
    if |s| == 0 then [] else [f(s[0])] + Map(f, s[1..])
  }

  /** A member of a sequence sits at some index. */
  lemma IndexOfMember<T>(x: T, s: seq<T>)
    requires x in s
    ensures exists i :: 0 <= i < |s| && s[i] == x
  {
  }

  /** Sequences holding the same multiset have the same members. */
  lemma SameMultisetSameMembers<T>(a: seq<T>, b: seq<T>)
    requires multiset(a) == multiset(b)
    ensures forall x :: x in a <==> x in b
  {
    forall x ensures x in a <==> x in b {
      assert x in a <==> x in multiset(a);
      assert x in b <==> x in multiset(b);
    }
  }

  /** The first element of `s` with the least `key`, none when `s` is
      empty. Stands for a query's `ORDER BY ... LIMIT 1`. */
  function FirstMin<T>(s: seq<T>, key: T -> int): (r: Option<T>)
    ensures r.None? <==> |s| == 0
    ensures r.Some? ==> r.value in s
    ensures r.Some? ==> forall i :: 0 <= i < |s| ==> key(r.value) <= key(s[i])
  {
    if |s| == 0 then None
    else
      var rest := FirstMin(s[1..], key);
      if rest.None? || key(s[0]) <= key(rest.value) then Some(s[0]) else rest
  }
}
