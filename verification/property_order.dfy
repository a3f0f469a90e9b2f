/** The order in which `Object.entries` lists the properties of the
    `categories` object: keys that are array indices first, in ascending
    numeric order, then every other key in the order it was created
    (section 10.1.11.1 OrdinaryOwnPropertyKeys of ECMA-262). */
module PropertyOrder {
  import opened Grouping

  predicate IsDigit(c: char) {
    '0' <= c <= '9'
  }

  predicate AllDigits(s: string) {
    forall k :: 0 <= k < |s| ==> IsDigit(s[k])
  }

  /** The number a string of decimal digits denotes. */
  function DigitsValue(s: string): nat
    requires AllDigits(s)
  {
    if |s| == 0 then 0
    else DigitsValue(s[..|s| - 1]) * 10 + (s[|s| - 1] as int - '0' as int)
  }

  function Digit(d: nat): (c: char)
    requires d < 10
    ensures IsDigit(c) && c as int - '0' as int == d
  {
    ('0' as int + d) as char
  }

  /** `String(n)` for a natural number: its decimal digits, no leading zero. */
  function Decimal(n: nat): (s: string)
    ensures |s| > 0 && AllDigits(s)
  {
    if n < 10 then [Digit(n)] else Decimal(n / 10) + [Digit(n % 10)]
  }

  /** 2^32 - 2, the largest array index. */
  const MaxArrayIndex: nat := 0xFFFF_FFFE

  /** A key is an array index when it is the canonical decimal form of a
      number no larger than MaxArrayIndex: digits only, and no leading zero
      unless the key is "0" itself. */
  predicate IsArrayIndex(key: string) {
    && |key| > 0
    && AllDigits(key)
    && (key[0] == '0' ==> |key| == 1)
    && DigitsValue(key) <= MaxArrayIndex
  }

  lemma {:induction false} DecimalRoundTrip(n: nat)
    ensures DigitsValue(Decimal(n)) == n
    ensures Decimal(n)[0] == '0' ==> n == 0 && |Decimal(n)| == 1
  {
    if n >= 10 {
      DecimalRoundTrip(n / 10);
      var s := Decimal(n);
      assert s[..|s| - 1] == Decimal(n / 10);
    }
  }

  lemma {:induction false} LeadingNonZero(s: string)
    requires |s| > 0 && AllDigits(s) && s[0] != '0'
    ensures DigitsValue(s) >= 1
  {
    if |s| > 1 {
      LeadingNonZero(s[..|s| - 1]);
    }
  }

  lemma {:induction false} CanonicalRoundTrip(s: string)
    requires |s| > 0 && AllDigits(s) && (s[0] == '0' ==> |s| == 1)
    ensures Decimal(DigitsValue(s)) == s
  {
    if |s| > 1 {
      var p := s[..|s| - 1];
      CanonicalRoundTrip(p);
      LeadingNonZero(p);
      assert s == p + [s[|s| - 1]];
    }
  }

  /** The array-index test agrees with its definition in ECMA-262: the key
      is the string form of some number from 0 to 2^32 - 2. */
  lemma {:induction false} ArrayIndexIffDecimal(key: string)
    ensures IsArrayIndex(key) <==> exists n: nat :: n <= MaxArrayIndex && Decimal(n) == key
  {
    if IsArrayIndex(key) {
      CanonicalRoundTrip(key);
    }
    if n: nat :| n <= MaxArrayIndex && Decimal(n) == key {
      DecimalRoundTrip(n);
    }
  }

  /** Two array-index keys with the same numeric value are the same key, so
      ordering distinct keys by value is a strict order. */
  lemma {:induction false} IndexValueInjective(a: string, b: string)
    requires IsArrayIndex(a) && IsArrayIndex(b) && DigitsValue(a) == DigitsValue(b)
    ensures a == b
  {
    CanonicalRoundTrip(a);
    CanonicalRoundTrip(b);
  }

  function Value(g: Group): nat
    requires IsArrayIndex(g.category)
  {
    DigitsValue(g.category)
  }

  predicate AllIndexed(gs: seq<Group>) {
    forall k :: 0 <= k < |gs| ==> IsArrayIndex(gs[k].category)
  }

  predicate NoneIndexed(gs: seq<Group>) {
    forall k :: 0 <= k < |gs| ==> !IsArrayIndex(gs[k].category)
  }

  predicate Ascending(gs: seq<Group>)
    requires AllIndexed(gs)
  {
    forall i, j :: 0 <= i < j < |gs| ==> Value(gs[i]) <= Value(gs[j])
  }

  /** Place `g` among the already ordered index-keyed groups `gs`. */
  function Insert(g: Group, gs: seq<Group>): (r: seq<Group>)
    requires IsArrayIndex(g.category) && AllIndexed(gs) && Ascending(gs)
    ensures AllIndexed(r) && Ascending(r)
    ensures multiset(r) == multiset(gs) + multiset{g}
    ensures r[0] == g || (|gs| > 0 && r[0] == gs[0])
  {
    if |gs| == 0 || Value(g) <= Value(gs[0]) then
      ConsAscending(g, gs);
      [g] + gs
    else
      assert gs == [gs[0]] + gs[1..];
      var rest := Insert(g, gs[1..]);
      ConsAscending(gs[0], rest);
      assert multiset([gs[0]] + rest) == multiset{gs[0]} + multiset(rest);
      [gs[0]] + rest
  }

  lemma {:induction false} ConsAscending(h: Group, gs: seq<Group>)
    requires IsArrayIndex(h.category) && AllIndexed(gs) && Ascending(gs)
    requires |gs| > 0 ==> Value(h) <= Value(gs[0])
    ensures AllIndexed([h] + gs) && Ascending([h] + gs)
  {
    var r := [h] + gs;
    forall i, j | 0 <= i < j < |r| ensures Value(r[i]) <= Value(r[j]) {
      if i > 0 {
        assert r[i] == gs[i - 1] && r[j] == gs[j - 1];
      } else {
        assert r[j] == gs[j - 1];
      }
    }
  }

  /** The index-keyed groups in ascending numeric order of their keys. */
  function SortByIndex(gs: seq<Group>): (r: seq<Group>)
    requires AllIndexed(gs)
    ensures AllIndexed(r) && Ascending(r)
    ensures multiset(r) == multiset(gs)
  {
    if |gs| == 0 then []
    else
      assert gs == [gs[0]] + gs[1..];
      Insert(gs[0], SortByIndex(gs[1..]))
  }

  /** The groups whose keys are array indices, in creation order. */
  function IndexGroups(gs: seq<Group>): (r: seq<Group>)
    ensures AllIndexed(r)
  {
    if |gs| == 0 then []
    else (if IsArrayIndex(gs[0].category) then [gs[0]] else []) + IndexGroups(gs[1..])
  }

  /** The groups whose keys are not array indices, in creation order. */
  function OtherGroups(gs: seq<Group>): (r: seq<Group>)
    ensures NoneIndexed(r)
  {
    if |gs| == 0 then []
    else (if IsArrayIndex(gs[0].category) then [] else [gs[0]]) + OtherGroups(gs[1..])
  }

  /** `Object.entries(categories)`: what the rendering loop iterates over. */
  function Entries(groups: seq<Group>): (es: seq<Group>)
    ensures multiset(es) == multiset(groups)
    ensures forall i, j :: 0 <= i < j < |es| && IsArrayIndex(es[j].category) ==>
      IsArrayIndex(es[i].category) && Value(es[i]) <= Value(es[j])
    ensures OtherGroups(es) == OtherGroups(groups)
  {
    var sorted := SortByIndex(IndexGroups(groups));
    var rest := OtherGroups(groups);
    PartitionMultiset(groups);
    OtherGroupsAppend(sorted, rest);
    OtherGroupsOfIndexed(sorted);
    OtherGroupsOfOthers(rest);
    sorted + rest
  }

  lemma {:induction false} PartitionMultiset(gs: seq<Group>)
    ensures multiset(IndexGroups(gs)) + multiset(OtherGroups(gs)) == multiset(gs)
  {
    if |gs| > 0 {
      PartitionMultiset(gs[1..]);
      assert gs == [gs[0]] + gs[1..];
      if IsArrayIndex(gs[0].category) {
        assert IndexGroups(gs) == [gs[0]] + IndexGroups(gs[1..]);
        assert OtherGroups(gs) == OtherGroups(gs[1..]);
      } else {
        assert IndexGroups(gs) == IndexGroups(gs[1..]);
        assert OtherGroups(gs) == [gs[0]] + OtherGroups(gs[1..]);
      }
    }
  }

  lemma {:induction false} OtherGroupsAppend(a: seq<Group>, b: seq<Group>)
    ensures OtherGroups(a + b) == OtherGroups(a) + OtherGroups(b)
  {
    if |a| == 0 {
      assert a + b == b;
    } else {
      assert (a + b)[1..] == a[1..] + b;
      OtherGroupsAppend(a[1..], b);
    }
  }

  lemma {:induction false} OtherGroupsOfIndexed(gs: seq<Group>)
    requires AllIndexed(gs)
    ensures OtherGroups(gs) == []
  {
    if |gs| > 0 {
      OtherGroupsOfIndexed(gs[1..]);
    }
  }

  lemma {:induction false} OtherGroupsOfOthers(gs: seq<Group>)
    requires NoneIndexed(gs)
    ensures OtherGroups(gs) == gs
  {
    if |gs| > 0 {
      OtherGroupsOfOthers(gs[1..]);
    }
  }

  lemma {:induction false} IndexGroupsOfOthers(gs: seq<Group>)
    requires NoneIndexed(gs)
    ensures IndexGroups(gs) == []
  {
    if |gs| > 0 {
      IndexGroupsOfOthers(gs[1..]);
    }
  }

  /** Without array-index keys, `Object.entries` lists the categories in
      the order they were created, i.e. first-occurrence order. */
  lemma {:induction false} NoIndexKeysKeepOrder(groups: seq<Group>)
    requires NoneIndexed(groups)
    ensures Entries(groups) == groups
  {
    IndexGroupsOfOthers(groups);
    OtherGroupsOfOthers(groups);
  }

  lemma {:induction false} DistinctCountOne(a: seq<Group>, p: int)
    requires DistinctCategories(a) && 0 <= p < |a|
    ensures multiset(a)[a[p]] == 1
  {
    assert a == [a[0]] + a[1..];
    if p == 0 {
      assert a[0] !in a[1..];
    } else {
      DistinctCountOne(a[1..], p - 1);
    }
  }

  lemma {:induction false} RepeatCountTwo(b: seq<Group>, i: int, j: int)
    requires 0 <= i < j < |b| && b[i] == b[j]
    ensures multiset(b)[b[i]] >= 2
  {
    assert b == b[..j] + [b[j]] + b[j + 1..];
    assert b[i] in b[..j];
  }

  /** Rearranging groups with distinct categories keeps them distinct. */
  lemma {:induction false} PermutationKeepsDistinct(a: seq<Group>, b: seq<Group>)
    requires multiset(a) == multiset(b) && DistinctCategories(a)
    ensures DistinctCategories(b)
  {
    forall i, j | 0 <= i < j < |b| ensures b[i].category != b[j].category {
      if b[i].category == b[j].category {
        assert b[i] in multiset(a) && b[j] in multiset(a);
        var p :| 0 <= p < |a| && a[p] == b[i];
        var q :| 0 <= q < |a| && a[q] == b[j];
        assert p == q;
        RepeatCountTwo(b, i, j);
        DistinctCountOne(a, p);
        assert false;
      }
    }
  }

  /** Distinct index keys come out strictly ascending. */
  lemma {:induction false} EntriesStrictlyAscending(groups: seq<Group>, i: int, j: int)
    requires DistinctCategories(groups)
    requires 0 <= i < j < |Entries(groups)| && IsArrayIndex(Entries(groups)[j].category)
    ensures IsArrayIndex(Entries(groups)[i].category)
    ensures Value(Entries(groups)[i]) < Value(Entries(groups)[j])
  {
    var es := Entries(groups);
    PermutationKeepsDistinct(groups, es);
    if Value(es[i]) == Value(es[j]) {
      IndexValueInjective(es[i].category, es[j].category);
    }
  }
}
