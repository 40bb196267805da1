/**
  The form-field naming convention `guarantors[<index>][<field>]`, matched
  by the pattern `^guarantors\[(\d+)\]\[([^\]]+)\]$` of buildPayloadFromForm.
 */
module FormKey {
  import opened Wrappers
  import opened Digits

  const Prefix: string := "guarantors["

  /** What the `[^\]]+` group accepts: at least one character, none of them `]`. */
  predicate ValidField(f: string) {
    f != [] && forall k :: 0 <= k < |f| ==> f[k] != ']'
  }

  /** The key text for a digit string and a field name. */
  function KeyText(digits: string, field: string): string {
    Prefix + digits + "][" + field + "]"
  }

  /** A matched key: the index as a number (`Number(m[1])`) and the field name (`m[2]`). */
  datatype FieldKey = FieldKey(index: nat, field: string)

  /** The length of the run of digits at the start of `s` (what greedy `\d+` consumes). */
  function DigitRun(s: string): (n: nat)
    ensures n <= |s| && AllDigits(s[..n])
    ensures n < |s| ==> !IsDigit(s[n])
    decreases |s|
  {
    if s != [] && IsDigit(s[0]) then
      var n := 1 + DigitRun(s[1..]);
      assert s[..n] == [s[0]] + s[1..][..n - 1];
      n
    else 0
  }

  /** `key.match(...)`: the index and field of a key of the expected shape, None otherwise. */
  function ParseKey(key: string): (r: Option<FieldKey>)
    ensures r.Some? ==> ValidField(r.value.field)
  {
    if |key| < |Prefix| || key[..|Prefix|] != Prefix then None
    else
      var rest := key[|Prefix|..];
      var n := DigitRun(rest);
      var tail := rest[n..];
      if n == 0 || |tail| < 3 || tail[0] != ']' || tail[1] != '[' || tail[|tail| - 1] != ']' then None
      else
        var field := tail[2..|tail| - 1];
        if ValidField(field) then Some(FieldKey(DigitsValue(rest[..n]), field)) else None
  }

  /** A run of digits stops at the first non-digit. */
  lemma {:induction false} DigitRunOf(d: string, t: string)
    requires AllDigits(d)
    requires t == [] || !IsDigit(t[0])
    ensures DigitRun(d + t) == |d|
    decreases |d|
  {
    if d != [] {
      assert (d + t)[1..] == d[1..] + t;
      DigitRunOf(d[1..], t);
    }
  }

  /** Every key of the expected shape matches, with its digits read as a number. */
  lemma KeyMatches(digits: string, field: string)
    requires digits != [] && AllDigits(digits) && ValidField(field)
    ensures ParseKey(KeyText(digits, field)) == Some(FieldKey(DigitsValue(digits), field))
  {
    var key := KeyText(digits, field);
    var t := "][" + field + "]";
    assert key == Prefix + (digits + t);
    assert key[..|Prefix|] == Prefix;
    var rest := key[|Prefix|..];
    assert rest == digits + t;
    DigitRunOf(digits, t);
    assert rest[..|digits|] == digits;
    assert rest[|digits|..] == t;
    assert t[2..|t| - 1] == field;
  }

  /** Only keys of the expected shape match, and the result is read off the key. */
  lemma MatchedKeyShape(key: string)
    requires ParseKey(key).Some?
    ensures exists digits ::
              && digits != [] && AllDigits(digits)
              && key == KeyText(digits, ParseKey(key).value.field)
              && DigitsValue(digits) == ParseKey(key).value.index
  {
    var rest := key[|Prefix|..];
    var n := DigitRun(rest);
    var tail := rest[n..];
    var digits := rest[..n];
    var field := tail[2..|tail| - 1];
    assert tail == "][" + field + "]";
    assert key == key[..|Prefix|] + rest;
    assert rest == digits + tail;
    assert key == KeyText(digits, field);
  }

  /** Indices are compared as numbers: extra leading zeros select the same guarantor. */
  lemma LeadingZeroSameKey(digits: string, field: string)
    requires digits != [] && AllDigits(digits) && ValidField(field)
    ensures ParseKey(KeyText("0" + digits, field)) == ParseKey(KeyText(digits, field))
  {
    LeadingZero(digits);
    KeyMatches(digits, field);
    KeyMatches("0" + digits, field);
  }
}
