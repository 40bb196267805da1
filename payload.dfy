/**
  buildPayloadFromForm: the ordered (key, value) entries of the form become
  `{ token, guarantors: [...] }`, one guarantor object per distinct index,
  in ascending index order, with `ownershipPct` and `phone` normalised.
 */
module PayloadBuilder {
  import opened Wrappers
  import opened JsText
  import opened FormKey

  /** A JSON value of a guarantor object: a string, a finite number or `null`. */
  datatype Value = Str(s: string) | Num(n: real) | Null

  /** One form entry, as FormData yields it: the field name and its (string) value. */
  type Entry = (string, string)

  /** The fields collected for one index, before normalisation. */
  type Fields = map<string, string>

  type Guarantor = map<string, Value>

  datatype Payload = Payload(token: string, guarantors: seq<Guarantor>)

  /** `Number(s)` followed by `Number.isFinite`: a finite number, or None. */
  type NumberParser = string -> Option<real>

  const OwnershipPct: string := "ownershipPct"
  const Phone: string := "phone"

  /** Entry `k` has a key naming guarantor `index` and field `field`. */
  predicate MatchesAt(entries: seq<Entry>, k: int, index: nat, field: string) {
    0 <= k < |entries| && ParseKey(entries[k].0) == Some(FieldKey(index, field))
  }

  /**
    The `guarantorsByIndex` map after the entries have been read in order:
    each matching entry sets its field of its index to the trimmed value.
   */
  function Grouped(entries: seq<Entry>): map<nat, Fields>
    decreases |entries|
  {
    if entries == [] then map[]
    else
      var prev := Grouped(entries[..|entries| - 1]);
      var last := entries[|entries| - 1];
      match ParseKey(last.0)
      case None => prev
      case Some(fk) =>
        var g := if fk.index in prev then prev[fk.index] else map[];
        prev[fk.index := g[fk.field := Trim(last.1)]]
  }

  lemma PrefixMatches(entries: seq<Entry>)
    requires entries != []
    ensures forall k, i, f :: 0 <= k < |entries| - 1 ==>
              (MatchesAt(entries, k, i, f) <==> MatchesAt(entries[..|entries| - 1], k, i, f))
  {
  }

  /** An object is created only together with a field: no guarantor is empty, and every field name is valid. */
  lemma {:induction false} GroupsNonEmpty(entries: seq<Entry>, i: nat)
    requires i in Grouped(entries)
    ensures Grouped(entries)[i] != map[]
    ensures forall f :: f in Grouped(entries)[i] ==> ValidField(f)
    decreases |entries|
  {
    var prev := entries[..|entries| - 1];
    if i in Grouped(prev) {
      GroupsNonEmpty(prev, i);
    }
    match ParseKey(entries[|entries| - 1].0)
    case None =>
    case Some(fk) =>
      if fk.index == i {
        assert fk.field in Grouped(entries)[i];
      }
  }

  /** A guarantor exists exactly for the indices some matching key names. */
  lemma {:induction false} GroupedIndex(entries: seq<Entry>, i: nat)
    ensures i in Grouped(entries) <==> exists k, f :: MatchesAt(entries, k, i, f)
    decreases |entries|
  {
    if entries != [] {
      var n := |entries| - 1;
      var prev := entries[..n];
      GroupedIndex(prev, i);
      PrefixMatches(entries);
      if i in Grouped(prev) {
        var k, f :| MatchesAt(prev, k, i, f);
        assert MatchesAt(entries, k, i, f);
      }
      if ParseKey(entries[n].0).Some? {
        var fk := ParseKey(entries[n].0).value;
        assert MatchesAt(entries, n, fk.index, fk.field);
      }
      if exists k, f :: MatchesAt(entries, k, i, f) {
        var k, f :| MatchesAt(entries, k, i, f);
        if k < n {
          assert MatchesAt(prev, k, i, f);
        }
      }
    }
  }

  /** A guarantor holds exactly the fields that some matching key names for its index. */
  lemma {:induction false} GroupedField(entries: seq<Entry>, i: nat, f: string)
    requires i in Grouped(entries)
    ensures f in Grouped(entries)[i] <==> exists k :: MatchesAt(entries, k, i, f)
    decreases |entries|
  {
    var n := |entries| - 1;
    var prev := entries[..n];
    PrefixMatches(entries);
    if i in Grouped(prev) {
      GroupedField(prev, i, f);
      if f in Grouped(prev)[i] {
        var k :| MatchesAt(prev, k, i, f);
        assert MatchesAt(entries, k, i, f);
      }
    }
    if ParseKey(entries[n].0) == Some(FieldKey(i, f)) {
      assert MatchesAt(entries, n, i, f);
    }
    if exists k :: MatchesAt(entries, k, i, f) {
      var k :| MatchesAt(entries, k, i, f);
      if k < n {
        assert MatchesAt(prev, k, i, f);
        GroupedIndex(prev, i);
      }
    }
  }

  /** The last entry for an index and field wins, and what is stored is its trimmed value. */
  lemma {:induction false} LastWriteWins(entries: seq<Entry>, k: nat, i: nat, f: string)
    requires MatchesAt(entries, k, i, f)
    requires forall k' :: k < k' < |entries| ==> !MatchesAt(entries, k', i, f)
    ensures i in Grouped(entries) && f in Grouped(entries)[i]
    ensures Grouped(entries)[i][f] == Trim(entries[k].1)
    decreases |entries|
  {
    var n := |entries| - 1;
    var prev := entries[..n];
    PrefixMatches(entries);
    if k < n {
      assert MatchesAt(prev, k, i, f);
      forall k' | k < k' < n ensures !MatchesAt(prev, k', i, f) {
        assert !MatchesAt(entries, k', i, f);
      }
      LastWriteWins(prev, k, i, f);
      assert !MatchesAt(entries, n, i, f);
    }
  }

  /** An entry whose key does not match changes nothing, wherever it stands. */
  lemma {:induction false} NonMatchingIgnored(before: seq<Entry>, e: Entry, after: seq<Entry>)
    requires ParseKey(e.0).None?
    ensures Grouped(before + [e] + after) == Grouped(before + after)
    decreases |after|
  {
    if after == [] {
      assert (before + [e] + after)[..|before|] == before;
      assert before + after == before;
    } else {
      var n := |after| - 1;
      NonMatchingIgnored(before, e, after[..n]);
      assert (before + [e] + after)[..|before| + n + 1] == before + [e] + after[..n];
      assert (before + after)[..|before| + n] == before + after[..n];
    }
  }

  /** The JSON value `ownershipPct` gets from its trimmed text. */
  function PctValue(text: string, parse: NumberParser): (v: Value)
    ensures !v.Str?
    ensures v.Num? <==> parse(text).Some?
    ensures v.Num? ==> parse(text) == Some(v.n)
  {
    match parse(text)
    case Some(x) => Num(x)
    case None => Null
  }

  /**
    The `.map` step on one guarantor: `ownershipPct` becomes a number or
    `null`, or is removed when absent or empty; an empty `phone` is removed.
   */
  function Normalize(g: Fields, parse: NumberParser): (r: Guarantor)
    ensures OwnershipPct in r <==> OwnershipPct in g && g[OwnershipPct] != ""
    ensures OwnershipPct in r ==>
              match parse(g[OwnershipPct])
              case Some(x) => r[OwnershipPct] == Num(x)
              case None => r[OwnershipPct] == Null
    ensures Phone in r <==> Phone in g && g[Phone] != ""
    ensures forall f :: f in g && f != OwnershipPct && f != Phone ==> f in r
    ensures forall f :: f in r ==> f in g
    ensures forall f :: f in r && f != OwnershipPct ==> r[f] == Str(g[f])
  {
    var strings := map f | f in g :: Str(g[f]);
    var withPct :=
      if OwnershipPct in g && g[OwnershipPct] != "" then strings[OwnershipPct := PctValue(g[OwnershipPct], parse)]
      else strings - {OwnershipPct};
    if Phone in withPct && withPct[Phone] == Str("") then withPct - {Phone} else withPct
  }

  predicate StrictlyAscending(s: seq<nat>) {
    forall a, b :: 0 <= a < b < |s| ==> s[a] < s[b]
  }

  predicate Distinct(s: seq<nat>) {
    forall a, b :: 0 <= a < b < |s| ==> s[a] != s[b]
  }

  /** The least element of a non-empty set of indices. */
  ghost function MinOf(s: set<nat>): (m: nat)
    requires s != {}
    ensures m in s && forall x :: x in s ==> m <= x
    decreases |s|
  {
    var y :| y in s;
    assert forall x :: x in s ==> x == y || x in s - {y};
    if s == {y} then y
    else
      var m := MinOf(s - {y});
      if y < m then y else m
  }

  /** The indices of a set in ascending order: repeatedly take the least one. */
  ghost function SortedIndices(s: set<nat>): (r: seq<nat>)
    ensures StrictlyAscending(r)
    ensures forall x :: x in r <==> x in s
    ensures |r| == |s|
    decreases |s|
  {
    if s == {} then []
    else
      var m := MinOf(s);
      [m] + SortedIndices(s - {m})
  }

  /** A strictly ascending sequence is determined by its elements. */
  lemma {:induction false} AscendingUnique(a: seq<nat>, b: seq<nat>)
    requires StrictlyAscending(a) && StrictlyAscending(b)
    requires forall x :: x in a <==> x in b
    ensures a == b
    decreases |a|
  {
    if a != [] { assert a[0] in b; }
    if b != [] { assert b[0] in a; }
    if a != [] {
      assert a[0] == b[0] by {
        assert a[0] in b;
        assert b[0] in a;
      }
      forall x
        ensures x in a[1..] <==> x in b[1..]
      {
        assert x in a[1..] <==> x in a && x != a[0];
        assert x in b[1..] <==> x in b && x != b[0];
      }
      AscendingUnique(a[1..], b[1..]);
      assert a == [a[0]] + a[1..];
      assert b == [b[0]] + b[1..];
    }
  }

  /** The indices of the payload's guarantors, in the payload's order. */
  ghost function Order(entries: seq<Entry>): seq<nat> {
    SortedIndices(Grouped(entries).Keys)
  }

  /** The payload buildPayloadFromForm returns, stated from the grouping and the ascending order. */
  ghost function PayloadSpec(entries: seq<Entry>, token: string, parse: NumberParser): (p: Payload)
    ensures p.token == token
    ensures |p.guarantors| == |Grouped(entries)|
  {
    var groups := Grouped(entries);
    var order := SortedIndices(groups.Keys);
    Payload(token, seq(|order|, k requires 0 <= k < |order| => Normalize(groups[order[k]], parse)))
  }

  /**
    The guarantors stand in strictly ascending index order, one for each index
    some matching key names and none for any other (gaps are not filled).
   */
  lemma PayloadIndices(entries: seq<Entry>)
    ensures StrictlyAscending(Order(entries))
    ensures forall i :: i in Order(entries) <==> exists k, f :: MatchesAt(entries, k, i, f)
  {
    forall i ensures i in Order(entries) <==> exists k, f :: MatchesAt(entries, k, i, f) {
      GroupedIndex(entries, i);
    }
  }

  /**
    End to end: the last entry for guarantor `i` and a field other than
    `ownershipPct` puts that field's trimmed value into the guarantor at the
    position of `i`, unless it is an empty `phone`.
   */
  lemma PayloadFieldValue(entries: seq<Entry>, token: string, parse: NumberParser, k: nat, i: nat, f: string)
    returns (pos: nat)
    requires MatchesAt(entries, k, i, f)
    requires forall k' :: k < k' < |entries| ==> !MatchesAt(entries, k', i, f)
    requires f != OwnershipPct
    requires f != Phone || Trim(entries[k].1) != ""
    ensures pos < |PayloadSpec(entries, token, parse).guarantors| && Order(entries)[pos] == i
    ensures f in PayloadSpec(entries, token, parse).guarantors[pos]
    ensures PayloadSpec(entries, token, parse).guarantors[pos][f] == Str(Trim(entries[k].1))
  {
    LastWriteWins(entries, k, i, f);
    var order := Order(entries);
    assert i in order;
    pos :| 0 <= pos < |order| && order[pos] == i;
  }

  /**
    End to end: the guarantor at a position keeps `ownershipPct` exactly when
    the last entry for it has non-empty trimmed text, and then holds the
    parsed number or `null`.
   */
  lemma PayloadOwnershipPct(entries: seq<Entry>, token: string, parse: NumberParser, k: nat, i: nat)
    returns (pos: nat)
    requires MatchesAt(entries, k, i, OwnershipPct)
    requires forall k' :: k < k' < |entries| ==> !MatchesAt(entries, k', i, OwnershipPct)
    ensures pos < |PayloadSpec(entries, token, parse).guarantors| && Order(entries)[pos] == i
    ensures OwnershipPct in PayloadSpec(entries, token, parse).guarantors[pos] <==> Trim(entries[k].1) != ""
    ensures Trim(entries[k].1) != "" ==>
              PayloadSpec(entries, token, parse).guarantors[pos][OwnershipPct] == PctValue(Trim(entries[k].1), parse)
  {
    LastWriteWins(entries, k, i, OwnershipPct);
    var order := Order(entries);
    assert i in order;
    pos :| 0 <= pos < |order| && order[pos] == i;
  }

  /** One step of the sort: `x` put in its place in an ascending sequence that lacks it. */
  method InsertAscending(sorted: seq<nat>, x: nat) returns (r: seq<nat>)
    requires StrictlyAscending(sorted) && x !in sorted
    ensures StrictlyAscending(r)
    ensures multiset(r) == multiset(sorted) + multiset{x}
  {
    var p := 0;
    while p < |sorted| && sorted[p] < x
      invariant 0 <= p <= |sorted|
      invariant forall q :: 0 <= q < p ==> sorted[q] < x
    {
      p := p + 1;
    }
    assert p < |sorted| ==> sorted[p] > x;
    r := sorted[..p] + [x] + sorted[p..];
    assert forall q :: 0 <= q < |r| ==> r[q] == if q < p then sorted[q] else if q == p then x else sorted[q - 1];
    assert sorted == sorted[..p] + sorted[p..];
  }

  /** `Array.from(guarantorsByIndex.entries()).sort((a, b) => a[0] - b[0])`, on the Map's keys. */
  method SortAscending(keys: seq<nat>) returns (sorted: seq<nat>)
    requires Distinct(keys)
    ensures StrictlyAscending(sorted)
    ensures multiset(sorted) == multiset(keys)
  {
    sorted := [];
    for n := 0 to |keys|
      invariant StrictlyAscending(sorted)
      invariant multiset(sorted) == multiset(keys[..n])
    {
      var x := keys[n];
      assert x !in keys[..n] by {
        assert forall a :: 0 <= a < n ==> keys[..n][a] != x;
      }
      assert x !in multiset(sorted);
      sorted := InsertAscending(sorted, x);
      assert keys[..n + 1] == keys[..n] + [x];
    }
    assert keys[..|keys|] == keys;
  }

  /**
    The `for` loop over `fd.entries()`: each entry's value is trimmed; an
    entry whose key matches sets its field in the object of its index,
    creating that object on first sight. `order` is the Map's insertion order.
   */
  method GroupEntries(entries: seq<Entry>) returns (byIndex: map<nat, Fields>, order: seq<nat>)
    ensures byIndex == Grouped(entries)
    ensures Distinct(order)
    ensures forall i :: i in order <==> i in byIndex
  {
    byIndex := map[];
    order := [];
    for n := 0 to |entries|
      invariant byIndex == Grouped(entries[..n])
      invariant Distinct(order)
      invariant forall i :: i in order <==> i in byIndex
    {
      var (key, raw) := entries[n];
      assert entries[..n + 1][..n] == entries[..n];
      var value := Trim(raw);
      var m := ParseKey(key);
      if m.None? {
        continue;
      }
      var idx := m.value.index;
      var field := m.value.field;
      if idx !in byIndex {
        byIndex := byIndex[idx := map[]];
        order := order + [idx];
      }
      byIndex := byIndex[idx := byIndex[idx][field := value]];
    }
    assert entries[..|entries|] == entries;
  }

  /** The `.map` over the sorted groups: each guarantor normalised, in order. */
  method NormalizeAll(byIndex: map<nat, Fields>, sorted: seq<nat>, parse: NumberParser) returns (gs: seq<Guarantor>)
    requires forall i :: i in sorted ==> i in byIndex
    ensures |gs| == |sorted|
    ensures forall j :: 0 <= j < |sorted| ==> gs[j] == Normalize(byIndex[sorted[j]], parse)
  {
    gs := [];
    for k := 0 to |sorted|
      invariant |gs| == k
      invariant forall j :: 0 <= j < k ==> gs[j] == Normalize(byIndex[sorted[j]], parse)
    {
      gs := gs + [Normalize(byIndex[sorted[k]], parse)];
    }
  }

  /**
    buildPayloadFromForm(form, token), with the form's entries and the
    numeric parse as parameters.
   */
  method BuildPayloadFromForm(entries: seq<Entry>, token: string, parse: NumberParser) returns (p: Payload)
    ensures p == PayloadSpec(entries, token, parse)
    ensures p.token == token
    ensures |p.guarantors| == |Grouped(entries)|
  {
    var byIndex, order := GroupEntries(entries);
    var sorted := SortAscending(order);
    assert forall i :: i in sorted <==> i in byIndex.Keys by {
      forall i ensures i in sorted <==> i in order {
        assert i in sorted <==> i in multiset(sorted);
        assert i in order <==> i in multiset(order);
      }
    }
    AscendingUnique(sorted, SortedIndices(byIndex.Keys));

    var guarantors := NormalizeAll(byIndex, sorted, parse);
    p := Payload(token, guarantors);
  }
}
