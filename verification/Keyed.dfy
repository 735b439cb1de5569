/**
 * Ordered totals over tuple keys: a sorted map whose comparator looks only at the common leading
 * elements, range sums for any key prefix, and one-level roll-ups. The sorted map is a sorted sequence.
 */
module Keyed {
  import opened Wrappers

  /** A key element; the missing value sorts first. */
  type Elem = Option<int>

  type Key = seq<Elem>

  datatype Entry = Entry(key: Key, measure: int)

  predicate Below(a: Elem, b: Elem) {
    b.Some? && (a.None? || a.value < b.value)
  }

  /** The prefix order: lexicographic on the leading elements both keys have. */
  predicate Less(a: Key, b: Key) {
    && a != [] && b != []
    && (Below(a[0], b[0]) || (a[0] == b[0] && Less(a[1..], b[1..])))
  }

  /** A probe is neither below nor above a key exactly when it is a prefix of it. */
  lemma {:induction false} EquivalentIffPrefix(k: Key, p: Key)
    requires |p| <= |k|
    ensures !Less(k, p) && !Less(p, k) <==> p <= k
  {
    if p != [] {
      EquivalentIffPrefix(k[1..], p[1..]);
      assert p <= k <==> p[0] == k[0] && p[1..] <= k[1..] by {
        assert p == [p[0]] + p[1..] && k == [k[0]] + k[1..];
      }
    }
  }

  /** What the order is: at the first element where the two keys differ, the missing value or the smaller number comes first. */
  lemma {:induction false} LessIffFirstDifference(a: Key, b: Key)
    ensures Less(a, b) <==>
      exists i :: 0 <= i < |a| && i < |b| && a[..i] == b[..i] && b[i].Some? && (a[i].None? || a[i].value < b[i].value)
  {
    if a != [] && b != [] && a[0] == b[0] {
      LessIffFirstDifference(a[1..], b[1..]);
      if Less(a, b) {
        var i :| 0 <= i < |a[1..]| && i < |b[1..]| && a[1..][..i] == b[1..][..i] && b[1..][i].Some? && (a[1..][i].None? || a[1..][i].value < b[1..][i].value);
        FirstsAgree(a, b, i);
      }
      if i :| 0 <= i < |a| && i < |b| && a[..i] == b[..i] && b[i].Some? && (a[i].None? || a[i].value < b[i].value) {
        assert i > 0;
        FirstsAgree(a, b, i - 1);
        assert a[1..][i - 1] == a[i] && b[1..][i - 1] == b[i];
      }
    } else if a != [] && b != [] {
      assert a[..0] == b[..0];
      forall i | 0 < i <= |a| && i <= |b| ensures a[..i] != b[..i] { assert a[..i][0] != b[..i][0]; }
    }
  }

  lemma FirstsAgree(a: Key, b: Key, i: nat)
    requires a != [] && b != [] && a[0] == b[0] && i < |a| && i < |b|
    ensures a[1..][..i] == b[1..][..i] <==> a[..i + 1] == b[..i + 1]
  {
    assert a[..i + 1] == [a[0]] + a[1..][..i] && b[..i + 1] == [b[0]] + b[1..][..i];
    if a[..i + 1] == b[..i + 1] { assert a[1..][..i] == a[..i + 1][1..]; }
  }

  /** The order between full keys carries over to any probe. */
  lemma {:induction false} BelowProbe(a: Key, b: Key, p: Key)
    requires |a| == |b| >= |p| && Less(a, b) && Less(b, p)
    ensures Less(a, p)
  {
    if a[0] == b[0] && b[0] == p[0] { BelowProbe(a[1..], b[1..], p[1..]); }
  }

  lemma {:induction false} AboveProbe(a: Key, b: Key, p: Key)
    requires |a| == |b| >= |p| && Less(p, a) && Less(a, b)
    ensures Less(p, b)
  {
    if p[0] == a[0] && a[0] == b[0] { AboveProbe(a[1..], b[1..], p[1..]); }
  }

  lemma {:induction false} Asymmetric(a: Key, b: Key)
    requires Less(a, b)
    ensures !Less(b, a)
  {
    if a[0] == b[0] { Asymmetric(a[1..], b[1..]); }
  }

  // ---------------------------------------------------------------- the sorted map

  ghost predicate Sorted(flat: seq<Entry>, width: nat) {
    && (forall i | 0 <= i < |flat| :: |flat[i].key| == width)
    && forall i, j | 0 <= i < j < |flat| :: Less(flat[i].key, flat[j].key)
  }

  /** The first position, from i on, whose key is not below the probe. */
  function LowerBound(flat: seq<Entry>, probe: Key, i: nat): (lo: nat)
    requires i <= |flat|
    ensures i <= lo <= |flat| && (lo < |flat| ==> !Less(flat[lo].key, probe))
    ensures forall k | i <= k < lo :: Less(flat[k].key, probe)
    decreases |flat| - i
  {
    if i == |flat| || !Less(flat[i].key, probe) then i else LowerBound(flat, probe, i + 1)
  }

  /** The first position whose key is above the probe. */
  function UpperBound(flat: seq<Entry>, probe: Key, i: nat): (hi: nat)
    requires i <= |flat|
    ensures i <= hi <= |flat| && (hi < |flat| ==> Less(probe, flat[hi].key))
    ensures forall k | i <= k < hi :: !Less(probe, flat[k].key)
    decreases |flat| - i
  {
    if i == |flat| || Less(probe, flat[i].key) then i else UpperBound(flat, probe, i + 1)
  }

  /** `flat[key] += m`. */
  function Put(flat: seq<Entry>, key: Key, m: int): seq<Entry> {
    var i := LowerBound(flat, key, 0);
    if i < |flat| && flat[i].key == key then flat[i := Entry(key, flat[i].measure + m)]
    else flat[..i] + [Entry(key, m)] + flat[i..]
  }

  lemma PutKeepsSorted(flat: seq<Entry>, key: Key, m: int)
    requires Sorted(flat, |key|)
    ensures Sorted(Put(flat, key, m), |key|)
  {
    var i := LowerBound(flat, key, 0);
    if i < |flat| && flat[i].key != key {
      EquivalentIffPrefix(flat[i].key, key);
      forall k | i < k < |flat| ensures Less(key, flat[k].key) { AboveProbe(flat[i].key, flat[k].key, key); }
    }
  }

  /** The matching entries are exactly those between the two bounds. */
  lemma PrefixIsRange(flat: seq<Entry>, width: nat, p: Key, k: nat)
    requires Sorted(flat, width) && |p| <= width && k < |flat|
    ensures LowerBound(flat, p, 0) <= k < UpperBound(flat, p, 0) <==> p <= flat[k].key
    ensures LowerBound(flat, p, 0) <= UpperBound(flat, p, 0)
  {
    var lo, hi := LowerBound(flat, p, 0), UpperBound(flat, p, 0);
    EquivalentIffPrefix(flat[k].key, p);
    if k > lo && Less(flat[k].key, p) { BelowProbe(flat[lo].key, flat[k].key, p); }
    if k > hi { AboveProbe(flat[hi].key, flat[k].key, p); }
    if hi < lo {
      Asymmetric(flat[hi].key, p);
    }
  }

  // ---------------------------------------------------------------- sums

  /** The total of what was added under keys that start with p. */
  function Sum(s: seq<Entry>, p: Key): int {
    if s == [] then 0
    else
      var last := s[|s| - 1];
      Sum(s[..|s| - 1], p) + if p <= last.key then last.measure else 0
  }

  lemma {:induction false} SumConcat(a: seq<Entry>, b: seq<Entry>, p: Key)
    ensures Sum(a + b, p) == Sum(a, p) + Sum(b, p)
  {
    if b == [] {
      assert a + b == a;
    } else {
      SumConcat(a, b[..|b| - 1], p);
      assert (a + b)[..|a + b| - 1] == a + b[..|b| - 1];
    }
  }

  lemma SumAround(a: seq<Entry>, e: Entry, b: seq<Entry>, p: Key)
    ensures Sum(a + [e] + b, p) == Sum(a, p) + Sum(b, p) + if p <= e.key then e.measure else 0
  {
    SumConcat(a + [e], b, p);
    assert (a + [e])[..|a|] == a;
  }

  lemma PutAddsToPresent(flat: seq<Entry>, i: nat, m: int, p: Key)
    requires i < |flat|
    ensures Sum(flat[i := Entry(flat[i].key, flat[i].measure + m)], p) == Sum(flat, p) + if p <= flat[i].key then m else 0
  {
    var a, b, e := flat[..i], flat[i + 1..], Entry(flat[i].key, flat[i].measure + m);
    assert flat == a + [flat[i]] + b && flat[i := e] == a + [e] + b;
    SumAround(a, flat[i], b, p);
    SumAround(a, e, b, p);
  }

  /** An addition shows in the sum of every prefix of its key, and nowhere else. */
  lemma PutAddsToSum(flat: seq<Entry>, key: Key, m: int, p: Key)
    ensures Sum(Put(flat, key, m), p) == Sum(flat, p) + if p <= key then m else 0
  {
    var i := LowerBound(flat, key, 0);
    hide Sum;
    if i < |flat| && flat[i].key == key {
      PutAddsToPresent(flat, i, m, p);
    } else {
      SumAround(flat[..i], Entry(key, m), flat[i..], p);
      SumConcat(flat[..i], flat[i..], p);
      assert flat == flat[..i] + flat[i..];
    }
  }

  /** The map after a sequence of additions. */
  function Built(adds: seq<Entry>): seq<Entry> {
    if adds == [] then []
    else Put(Built(adds[..|adds| - 1]), adds[|adds| - 1].key, adds[|adds| - 1].measure)
  }

  ghost predicate OfWidth(adds: seq<Entry>, width: nat) {
    forall i | 0 <= i < |adds| :: |adds[i].key| == width
  }

  lemma {:induction false} BuiltIsSorted(adds: seq<Entry>, width: nat)
    requires OfWidth(adds, width)
    ensures Sorted(Built(adds), width)
  {
    if adds != [] {
      BuiltIsSorted(adds[..|adds| - 1], width);
      PutKeepsSorted(Built(adds[..|adds| - 1]), adds[|adds| - 1].key, adds[|adds| - 1].measure);
    }
  }

  /** Aggregating loses nothing: every prefix sum is that of the raw additions. */
  lemma {:induction false} BuiltKeepsSums(adds: seq<Entry>, p: Key)
    ensures Sum(Built(adds), p) == Sum(adds, p)
  {
    if adds != [] {
      BuiltKeepsSums(adds[..|adds| - 1], p);
      PutAddsToSum(Built(adds[..|adds| - 1]), adds[|adds| - 1].key, adds[|adds| - 1].measure, p);
    }
  }

  ghost predicate HasKey(s: seq<Entry>, key: Key) {
    exists i :: 0 <= i < |s| && s[i].key == key
  }

  lemma PutHasKey(flat: seq<Entry>, key: Key, m: int, k: Key)
    ensures HasKey(Put(flat, key, m), k) <==> HasKey(flat, k) || k == key
  {
    var i, after := LowerBound(flat, key, 0), Put(flat, key, m);
    assert after[i].key == key;
    if HasKey(flat, k) {
      var j :| 0 <= j < |flat| && flat[j].key == k;
      assert after[j].key == k || after[j + 1].key == k;
    }
    if HasKey(after, k) && k != key {
      var j :| 0 <= j < |after| && after[j].key == k;
      assert flat[if j < i || |after| == |flat| then j else j - 1].key == k;
    }
  }

  lemma {:induction false} BuiltHasKey(adds: seq<Entry>, k: Key)
    ensures HasKey(Built(adds), k) <==> HasKey(adds, k)
  {
    if adds != [] {
      var init, last := adds[..|adds| - 1], adds[|adds| - 1];
      BuiltHasKey(init, k);
      PutHasKey(Built(init), last.key, last.measure, k);
      assert adds[|adds| - 1].key == last.key;
      if HasKey(adds, k) && k != last.key {
        var j :| 0 <= j < |adds| && adds[j].key == k;
        assert init[j].key == k;
      }
    }
  }

  /** In a sorted map an entry's measure is the sum under its full key. */
  lemma {:induction false} EntryIsItsSum(flat: seq<Entry>, width: nat, n: nat, i: nat)
    requires Sorted(flat, width) && i < |flat| && n <= |flat|
    ensures Sum(flat[..n], flat[i].key) == if i < n then flat[i].measure else 0
  {
    if n > 0 {
      EntryIsItsSum(flat, width, n - 1, i);
      assert flat[..n][..n - 1] == flat[..n - 1];
      if n - 1 != i {
        EquivalentIffPrefix(flat[n - 1].key, flat[i].key);
      }
    }
  }

  /** Key k of the map carries the sum of the additions under k, and the keys are those added. */
  lemma LeavesAreSums(adds: seq<Entry>, width: nat, i: nat)
    requires OfWidth(adds, width) && i < |Built(adds)|
    ensures Built(adds)[i].measure == Sum(adds, Built(adds)[i].key) && HasKey(adds, Built(adds)[i].key)
  {
    var flat := Built(adds);
    BuiltIsSorted(adds, width);
    BuiltKeepsSums(adds, flat[i].key);
    EntryIsItsSum(flat, width, |flat|, i);
    assert flat[..|flat|] == flat;
    assert HasKey(flat, flat[i].key);
    BuiltHasKey(adds, flat[i].key);
  }

  // ---------------------------------------------------------------- the class

  class KeyedTotals {
    const width: nat
    var flat: seq<Entry>
    ghost var adds: seq<Entry>

    ghost predicate Valid()
      reads this
    {
      flat == Built(adds) && OfWidth(adds, width) && OfWidth(flat, width)
    }

    constructor (width: nat)
      ensures Valid() && adds == [] && this.width == width
    {
      this.width, flat, adds := width, [], [];
    }

    method Add(key: Key, m: int)
      requires Valid() && |key| == width
      modifies this
      ensures Valid() && adds == old(adds) + [Entry(key, m)]
    {
      flat := PutAt(flat, key, m);
      adds := adds + [Entry(key, m)];
      assert adds[..|adds| - 1] == old(adds);
      BuiltIsSorted(adds, width);
    }

    /** The sum over the range the prefix delimits is the sum of the matching additions. */
    method Subtotal(prefix: Key) returns (t: int)
      requires Valid() && |prefix| <= width
      ensures t == Sum(adds, prefix)
    {
      hide Sum;
      hide Sorted;
      hide OfWidth;
      hide Less;
      hide Built;
      hide LowerBound;
      hide UpperBound;
      BuiltIsSorted(adds, width);
      BuiltKeepsSums(adds, prefix);
      RangeEdges(flat, width, prefix);
      var it, end := LowerBound(flat, prefix, 0), UpperBound(flat, prefix, 0);
      t := 0;
      while it < end
        invariant LowerBound(flat, prefix, 0) <= it <= end && t == Sum(flat[..it], prefix)
      {
        RangeStep(flat, width, prefix, it);
        t := t + flat[it].measure;
        it := it + 1;
      }
    }

    method Total() returns (t: int)
      requires Valid()
      ensures t == Sum(adds, [])
    {
      t := Subtotal([]);
    }

    /** One level of the hierarchy: the map of the keys' first `level` elements. */
    method Rollup(level: nat) returns (out: seq<Entry>)
      requires Valid() && level <= width
      ensures out == Built(Heads(flat, level))
    {
      out := [];
      for i := 0 to |flat|
        invariant OfWidth(flat, width) && out == Built(HeadsUpTo(flat, level, i))
      {
        ghost var before := HeadsUpTo(flat, level, i);
        out := PutAt(out, flat[i].key[..level], flat[i].measure);
        assert HeadsUpTo(flat, level, i + 1)[..i] == before;
      }
    }
  }

  /** The map's own insertion: walk to the position, then add or insert there. */
  method PutAt(flat: seq<Entry>, key: Key, m: int) returns (after: seq<Entry>)
    ensures after == Put(flat, key, m)
  {
    var i := 0;
    while i < |flat| && Less(flat[i].key, key)
      invariant i <= |flat| && LowerBound(flat, key, i) == LowerBound(flat, key, 0)
    {
      i := i + 1;
    }
    if i < |flat| && flat[i].key == key {
      after := flat[i := Entry(key, flat[i].measure + m)];
    } else {
      after := flat[..i] + [Entry(key, m)] + flat[i..];
    }
  }

  lemma BoundsOrdered(flat: seq<Entry>, width: nat, p: Key)
    requires Sorted(flat, width) && |p| <= width
    ensures LowerBound(flat, p, 0) <= UpperBound(flat, p, 0)
  {
    if |flat| > 0 { PrefixIsRange(flat, width, p, 0); }
  }

  lemma {:induction false} NoneMatch(flat: seq<Entry>, width: nat, p: Key, n: nat)
    requires Sorted(flat, width) && |p| <= width && n <= LowerBound(flat, p, 0)
    ensures Sum(flat[..n], p) == 0
  {
    if n > 0 {
      NoneMatch(flat, width, p, n - 1);
      PrefixIsRange(flat, width, p, n - 1);
      assert flat[..n][..n - 1] == flat[..n - 1];
    }
  }

  lemma {:induction false} NoneMatchAfter(flat: seq<Entry>, width: nat, p: Key, n: nat)
    requires Sorted(flat, width) && |p| <= width && UpperBound(flat, p, 0) <= n <= |flat|
    ensures Sum(flat[..n], p) == Sum(flat[..UpperBound(flat, p, 0)], p)
  {
    if n > UpperBound(flat, p, 0) {
      NoneMatchAfter(flat, width, p, n - 1);
      PrefixIsRange(flat, width, p, n - 1);
      assert flat[..n][..n - 1] == flat[..n - 1];
    }
  }

  /** Within the range every entry adds its measure. */
  lemma RangeStep(flat: seq<Entry>, width: nat, p: Key, i: nat)
    requires Sorted(flat, width) && |p| <= width && LowerBound(flat, p, 0) <= i < UpperBound(flat, p, 0)
    ensures Sum(flat[..i + 1], p) == Sum(flat[..i], p) + flat[i].measure
  {
    PrefixIsRange(flat, width, p, i);
    assert flat[..i + 1][..i] == flat[..i];
  }

  /** Outside the range nothing does. */
  lemma RangeEdges(flat: seq<Entry>, width: nat, p: Key)
    requires Sorted(flat, width) && |p| <= width
    ensures LowerBound(flat, p, 0) <= UpperBound(flat, p, 0)
    ensures Sum(flat[..LowerBound(flat, p, 0)], p) == 0 && Sum(flat[..UpperBound(flat, p, 0)], p) == Sum(flat, p)
  {
    NoneMatch(flat, width, p, LowerBound(flat, p, 0));
    BoundsOrdered(flat, width, p);
    NoneMatchAfter(flat, width, p, |flat|);
    assert flat[..|flat|] == flat;
  }

  function HeadsUpTo(flat: seq<Entry>, level: nat, n: nat): (r: seq<Entry>)
    requires n <= |flat| && forall i | 0 <= i < n :: level <= |flat[i].key|
    ensures |r| == n
  {
    seq(n, i requires 0 <= i < n => Entry(flat[i].key[..level], flat[i].measure))
  }

  function Heads(flat: seq<Entry>, level: nat): seq<Entry>
    requires forall i | 0 <= i < |flat| :: level <= |flat[i].key|
  {
    HeadsUpTo(flat, level, |flat|)
  }

  // ---------------------------------------------------------------- what the roll-up and the total mean

  lemma {:induction false} HeadsKeepSums(flat: seq<Entry>, level: nat, n: nat, p: Key)
    requires n <= |flat| && |p| <= level && forall i | 0 <= i < |flat| :: level <= |flat[i].key|
    ensures Sum(HeadsUpTo(flat, level, n), p) == Sum(flat[..n], p)
  {
    if n > 0 {
      HeadsKeepSums(flat, level, n - 1, p);
      assert HeadsUpTo(flat, level, n)[..n - 1] == HeadsUpTo(flat, level, n - 1);
      assert flat[..n][..n - 1] == flat[..n - 1];
      var k := flat[n - 1].key;
      assert p <= k[..level] <==> p <= k;
    }
  }

  /**
   * Every entry of the roll-up carries the subtotal of its prefix; it has one for each prefix that
   * occurs among the added keys, in order, and no other.
   */
  lemma RollupAgreesWithSubtotals(adds: seq<Entry>, width: nat, level: nat, p: Key)
    requires OfWidth(adds, width) && level <= width && |p| == level
    ensures OfWidth(Built(adds), width)
    ensures var out := Built(Heads(Built(adds), level));
      && Sorted(out, level)
      && (forall i | 0 <= i < |out| && out[i].key == p :: out[i].measure == Sum(adds, p))
      && (HasKey(out, p) <==> exists j :: 0 <= j < |adds| && adds[j].key[..level] == p)
  {
    BuiltIsSorted(adds, width);
    var flat := Built(adds);
    var heads := Heads(flat, level);
    var out := Built(heads);
    BuiltIsSorted(heads, level);
    forall i | 0 <= i < |out| && out[i].key == p ensures out[i].measure == Sum(adds, p) {
      LeavesAreSums(heads, level, i);
      HeadsKeepSums(flat, level, |flat|, p);
      assert flat[..|flat|] == flat;
      BuiltKeepsSums(adds, p);
    }
    BuiltHasKey(heads, p);
    if HasKey(heads, p) {
      var i :| 0 <= i < |heads| && heads[i].key == p;
      assert HasKey(flat, flat[i].key);
      BuiltHasKey(adds, flat[i].key);
      var j :| 0 <= j < |adds| && adds[j].key == flat[i].key;
      assert adds[j].key[..level] == p;
    }
    if j :| 0 <= j < |adds| && adds[j].key[..level] == p {
      assert HasKey(adds, adds[j].key);
      BuiltHasKey(adds, adds[j].key);
      var i :| 0 <= i < |flat| && flat[i].key == adds[j].key;
      assert heads[i].key == p;
    }
  }

  /** The grand total does not depend on the keys at all, hence not on how they were extracted. */
  lemma {:induction false} TotalIgnoresKeys(a: seq<Entry>, b: seq<Entry>)
    requires |a| == |b| && forall i | 0 <= i < |a| :: a[i].measure == b[i].measure
    ensures Sum(a, []) == Sum(b, [])
  {
    if a != [] { TotalIgnoresKeys(a[..|a| - 1], b[..|b| - 1]); }
  }

  function Extracted<R>(rows: seq<R>, key: R -> Key, measure: R -> int): seq<Entry> {
    seq(|rows|, i requires 0 <= i < |rows| => Entry(key(rows[i]), measure(rows[i])))
  }

  /** Any two key extractors over the same rows build maps with the same grand total. */
  lemma TotalIgnoresExtractor<R>(rows: seq<R>, key: R -> Key, other: R -> Key, measure: R -> int)
    ensures Sum(Built(Extracted(rows, key, measure)), []) == Sum(Built(Extracted(rows, other, measure)), [])
  {
    var a, b := Extracted(rows, key, measure), Extracted(rows, other, measure);
    BuiltKeepsSums(a, []);
    BuiltKeepsSums(b, []);
    TotalIgnoresKeys(a, b);
  }
}
