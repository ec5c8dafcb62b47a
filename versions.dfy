/** Latest-version selection, shared by the registry view and the plugin
    configuration endpoint: drop deprecated versions, sort the rest with the
    segment-wise numeric comparator (a stable ascending sort), take the last. */
module Versions {
  import opened Wrappers
  import opened JsText

  /** One element of a registry entry's `versions` array; an absent
      `deprecated` flag reads as false. */
  datatype VersionEntry = VersionEntry(version: string, deprecated: bool)

  /** `parseInt(part, 10) || 0`: `NaN` (and `-0`) count as 0. */
  function SegmentValue(part: string): int
  {
    match ParseInt(part)
    case Some(n) => n
    case None => 0
  }

  /** `v.split('.').map(n => parseInt(n, 10))`, with `NaN` already read as 0. */
  function Segments(v: string): (segs: seq<int>)
    ensures |segs| == |Split(v, '.')|
    ensures forall i :: 0 <= i < |segs| ==> segs[i] == SegmentValue(Split(v, '.')[i])
  {
    var parts := Split(v, '.');
    seq(|parts|, i requires 0 <= i < |parts| => SegmentValue(parts[i]))
  }

  /** `versionA[i] || 0`: a segment past the end reads as 0. */
  function SegmentAt(segs: seq<int>, i: nat): int
  {
    if i < |segs| then segs[i] else 0
  }

  function Max(a: nat, b: nat): nat
  {
    if a < b then b else a
  }

  /** The comparator's loop from index `i` on: the difference of the first
      pair of segments that differ, or 0. */
  function CompareFrom(a: seq<int>, b: seq<int>, i: nat): int
    decreases Max(|a|, |b|) - i
  {
    if i >= Max(|a|, |b|) then 0
    else if SegmentAt(a, i) != SegmentAt(b, i) then SegmentAt(a, i) - SegmentAt(b, i)
    else CompareFrom(a, b, i + 1)
  }

  /** The sort comparator on two version strings: negative, zero or positive. */
  function Compare(a: string, b: string): int
  {
    CompareFrom(Segments(a), Segments(b), 0)
  }

  /** Two segment lists are equal once both are padded with zeros. */
  ghost predicate SameSegments(a: seq<int>, b: seq<int>)
  {
    forall i: nat :: SegmentAt(a, i) == SegmentAt(b, i)
  }

  /** One step of the comparison, valid at every index (past both ends the
      padded segments are both 0). */
  lemma CompareStep(a: seq<int>, b: seq<int>, i: nat)
    ensures CompareFrom(a, b, i) ==
      if SegmentAt(a, i) != SegmentAt(b, i) then SegmentAt(a, i) - SegmentAt(b, i)
      else CompareFrom(a, b, i + 1)
  {
  }

  /** The comparison is 0 exactly when the padded segments agree from `i` on. */
  lemma {:induction false} CompareFromZeroIff(a: seq<int>, b: seq<int>, i: nat)
    ensures CompareFrom(a, b, i) == 0 <==> forall k: nat :: i <= k ==> SegmentAt(a, k) == SegmentAt(b, k)
    decreases Max(|a|, |b|) - i
  {
    if i < Max(|a|, |b|) && SegmentAt(a, i) == SegmentAt(b, i) {
      CompareFromZeroIff(a, b, i + 1);
      if CompareFrom(a, b, i) == 0 {
        forall k: nat | i <= k ensures SegmentAt(a, k) == SegmentAt(b, k) {
          if k > i {
          }
        }
      }
    }
  }

  /** Swapping the arguments negates the comparison. */
  lemma {:induction false} CompareFromAntisymmetric(a: seq<int>, b: seq<int>, i: nat)
    ensures CompareFrom(a, b, i) == -CompareFrom(b, a, i)
    decreases Max(|a|, |b|) - i
  {
    if i < Max(|a|, |b|) && SegmentAt(a, i) == SegmentAt(b, i) {
      CompareFromAntisymmetric(a, b, i + 1);
    }
  }

  /** "Not greater than" is transitive. */
  lemma {:induction false} CompareFromTransitive(a: seq<int>, b: seq<int>, c: seq<int>, i: nat)
    requires CompareFrom(a, b, i) <= 0 && CompareFrom(b, c, i) <= 0
    ensures CompareFrom(a, c, i) <= 0
    decreases Max(Max(|a|, |b|), |c|) - i
  {
    CompareStep(a, b, i);
    CompareStep(b, c, i);
    CompareStep(a, c, i);
    if i < Max(Max(|a|, |b|), |c|)
      && SegmentAt(a, i) == SegmentAt(b, i) && SegmentAt(b, i) == SegmentAt(c, i)
    {
      CompareFromTransitive(a, b, c, i + 1);
    }
  }

  /** "1.0" and "1.0.0" compare equal: missing segments count as 0. */
  lemma {:induction false} PaddingIsIgnored(a: seq<int>, n: nat)
    ensures CompareFrom(a, a + seq(n, _ => 0), 0) == 0
  {
    var b := a + seq(n, _ => 0);
    forall k: nat ensures SegmentAt(a, k) == SegmentAt(b, k) {
      if k < |a| {
        assert b[k] == a[k];
      } else if k < |b| {
        assert b[k] == 0;
      }
    }
    CompareFromZeroIff(a, b, 0);
  }

  /** The source's comparator, with its `for` loop over the segment indices. */
  method CompareVersions(a: string, b: string) returns (d: int)
    ensures d == Compare(a, b)
    ensures d == 0 <==> SameSegments(Segments(a), Segments(b))
    ensures d == -Compare(b, a)
  {
    var versionA := Segments(a);
    var versionB := Segments(b);
    CompareFromZeroIff(versionA, versionB, 0);
    CompareFromAntisymmetric(versionA, versionB, 0);
    for i := 0 to Max(|versionA|, |versionB|)
      invariant CompareFrom(versionA, versionB, i) == CompareFrom(versionA, versionB, 0)
    {
      var numA := SegmentAt(versionA, i);
      var numB := SegmentAt(versionB, i);
      if numA != numB {
        return numA - numB;
      }
    }
    return 0;
  }

  /** Consequences of the comparator being a total preorder. */
  lemma CompareReflexive(a: string)
    ensures Compare(a, a) == 0
  {
    CompareFromAntisymmetric(Segments(a), Segments(a), 0);
  }

  lemma CompareTransitive(a: string, b: string, c: string)
    requires Compare(a, b) <= 0 && Compare(b, c) <= 0
    ensures Compare(a, c) <= 0
  {
    CompareFromTransitive(Segments(a), Segments(b), Segments(c), 0);
  }

  lemma CompareFlip(a: string, b: string)
    ensures Compare(a, b) == -Compare(b, a)
  {
    CompareFromAntisymmetric(Segments(a), Segments(b), 0);
  }

  /** `versions.filter(v => !v.deprecated)`, keeping registry order. */
  function Available(vs: seq<VersionEntry>): (r: seq<VersionEntry>)
    ensures |r| <= |vs|
    ensures forall v :: v in r <==> v in vs && !v.deprecated
  {
    if vs == [] then []
    else Kept(vs[0]) + Available(vs[1..])
  }

  /** What the filter keeps of one entry. */
  function Kept(v: VersionEntry): seq<VersionEntry>
  {
    if v.deprecated then [] else [v]
  }

  /** Each non-deprecated entry is kept as often as the registry lists it. */
  lemma {:induction false} AvailableCounts(vs: seq<VersionEntry>)
    ensures forall v :: multiset(Available(vs))[v] == if v.deprecated then 0 else multiset(vs)[v]
  {
    if vs != [] {
      AvailableCounts(vs[1..]);
      assert vs == [vs[0]] + vs[1..];
    }
  }

  /** The filter works entry by entry: filtering two lists one after the
      other is filtering their concatenation, so registry order is kept. */
  lemma {:induction false} AvailableAppend(a: seq<VersionEntry>, b: seq<VersionEntry>)
    ensures Available(a + b) == Available(a) + Available(b)
  {
    if a == [] {
      assert a + b == b;
    } else {
      AvailableAppend(a[1..], b);
      AvailableOfCons(a, b);
      ConcatAssociative(Kept(a[0]), Available(a[1..]), Available(b));
    }
  }

  lemma AvailableOfCons(a: seq<VersionEntry>, b: seq<VersionEntry>)
    requires a != []
    ensures Available(a + b) == Kept(a[0]) + Available(a[1..] + b)
  {
    assert (a + b)[0] == a[0] && (a + b)[1..] == a[1..] + b;
  }

  lemma ConcatAssociative<T>(x: seq<T>, y: seq<T>, z: seq<T>)
    ensures x + (y + z) == (x + y) + z
  {
  }

  /** The laws the sort relies on: swapping the arguments negates the
      result, and "not greater than" is transitive. */
  ghost predicate TotalPreorder(cmp: (string, string) -> int)
  {
    && (forall a, b :: cmp(a, b) == -cmp(b, a))
    && (forall a, b, c :: cmp(a, b) <= 0 && cmp(b, c) <= 0 ==> cmp(a, c) <= 0)
  }

  /** The segment-wise comparator obeys those laws. */
  lemma CompareIsTotalPreorder()
    ensures TotalPreorder(Compare)
  {
    forall a, b ensures Compare(a, b) == -Compare(b, a) {
      CompareFlip(a, b);
    }
    forall a, b, c | Compare(a, b) <= 0 && Compare(b, c) <= 0 ensures Compare(a, c) <= 0 {
      CompareTransitive(a, b, c);
    }
  }

  /** Inserts `x` into an ascending list after every element not greater than
      it: one step of a stable ascending sort. */
  function Insert(sorted: seq<VersionEntry>, x: VersionEntry, cmp: (string, string) -> int): (r: seq<VersionEntry>)
    ensures |r| == |sorted| + 1
    ensures multiset(r) == multiset(sorted) + multiset{x}
    ensures forall y :: y in r ==> y == x || y in sorted
  {
    if sorted == [] then [x]
    else if cmp(sorted[|sorted| - 1].version, x.version) <= 0 then sorted + [x]
    else
      var init := sorted[..|sorted| - 1];
      assert sorted == init + [sorted[|sorted| - 1]];
      Insert(init, x, cmp) + [sorted[|sorted| - 1]]
  }

  /** `Array.prototype.sort(cmp)`: a stable sort, modelled as insertion of
      each element in registry order. */
  function StableSort(vs: seq<VersionEntry>, cmp: (string, string) -> int): (r: seq<VersionEntry>)
    ensures |r| == |vs|
    ensures multiset(r) == multiset(vs)
  {
    if vs == [] then []
    else
      assert vs == vs[..|vs| - 1] + [vs[|vs| - 1]];
      Insert(StableSort(vs[..|vs| - 1], cmp), vs[|vs| - 1], cmp)
  }

  ghost predicate Ascending(s: seq<VersionEntry>, cmp: (string, string) -> int)
  {
    forall i, j :: 0 <= i < j < |s| ==> cmp(s[i].version, s[j].version) <= 0
  }

  /** Every element of `s` is not greater than `v`. */
  ghost predicate AllNotAfter(s: seq<VersionEntry>, v: VersionEntry, cmp: (string, string) -> int)
  {
    forall i :: 0 <= i < |s| ==> cmp(s[i].version, v.version) <= 0
  }

  lemma AllNotAfterInsert(s: seq<VersionEntry>, x: VersionEntry, v: VersionEntry, cmp: (string, string) -> int)
    requires AllNotAfter(s, v, cmp) && cmp(x.version, v.version) <= 0
    ensures AllNotAfter(Insert(s, x, cmp), v, cmp)
  {
    var r := Insert(s, x, cmp);
    forall i | 0 <= i < |r| ensures cmp(r[i].version, v.version) <= 0 {
      assert r[i] in r;
      if r[i] != x {
        var k :| 0 <= k < |s| && s[k] == r[i];
      }
    }
  }

  lemma {:induction false} InsertAscending(sorted: seq<VersionEntry>, x: VersionEntry, cmp: (string, string) -> int)
    requires TotalPreorder(cmp) && Ascending(sorted, cmp)
    ensures Ascending(Insert(sorted, x, cmp), cmp)
    decreases |sorted|
  {
    if sorted != [] {
      var init := sorted[..|sorted| - 1];
      var last := sorted[|sorted| - 1];
      if cmp(last.version, x.version) > 0 {
        InsertAscending(init, x, cmp);
        assert AllNotAfter(init, last, cmp);
        AllNotAfterInsert(init, x, last, cmp);
      } else {
        assert AllNotAfter(sorted, x, cmp) by {
          forall i | 0 <= i < |sorted| ensures cmp(sorted[i].version, x.version) <= 0 {
            if i < |sorted| - 1 {
              assert cmp(sorted[i].version, last.version) <= 0;
            }
          }
        }
      }
    }
  }

  /** The sort returns its input in ascending order. */
  lemma {:induction false} StableSortAscending(vs: seq<VersionEntry>, cmp: (string, string) -> int)
    requires TotalPreorder(cmp)
    ensures Ascending(StableSort(vs, cmp), cmp)
  {
    if vs != [] {
      StableSortAscending(vs[..|vs| - 1], cmp);
      InsertAscending(StableSort(vs[..|vs| - 1], cmp), vs[|vs| - 1], cmp);
    }
  }

  /** Index `k` holds the latest version of `vs`: nothing exceeds it, and every
      entry after it is strictly smaller, so it is the last of the greatest. */
  ghost predicate IsLatestAt(vs: seq<VersionEntry>, k: int, cmp: (string, string) -> int)
  {
    && 0 <= k < |vs|
    && (forall j :: 0 <= j < |vs| ==> cmp(vs[j].version, vs[k].version) <= 0)
    && (forall j :: k < j < |vs| ==> cmp(vs[j].version, vs[k].version) < 0)
  }

  /** Only one index can be the latest. */
  lemma LatestIsUnique(vs: seq<VersionEntry>, k1: int, k2: int, cmp: (string, string) -> int)
    requires TotalPreorder(cmp)
    requires IsLatestAt(vs, k1, cmp) && IsLatestAt(vs, k2, cmp)
    ensures k1 == k2
  {
    assert cmp(vs[k1].version, vs[k2].version) == -cmp(vs[k2].version, vs[k1].version);
  }

  /** The index the last element of the stable sort came from. */
  function LatestIndex(vs: seq<VersionEntry>, cmp: (string, string) -> int): (k: nat)
    requires |vs| > 0
    ensures k < |vs|
  {
    if |vs| == 1 then 0
    else
      var k := LatestIndex(vs[..|vs| - 1], cmp);
      if cmp(vs[|vs| - 1].version, vs[k].version) >= 0 then |vs| - 1 else k
  }

  lemma {:induction false} LatestIndexIsLatest(vs: seq<VersionEntry>, cmp: (string, string) -> int)
    requires TotalPreorder(cmp) && |vs| > 0
    ensures IsLatestAt(vs, LatestIndex(vs, cmp), cmp)
  {
    if |vs| > 1 {
      var init := vs[..|vs| - 1];
      LatestIndexIsLatest(init, cmp);
      var k := LatestIndex(init, cmp);
      if cmp(vs[|vs| - 1].version, vs[k].version) >= 0 {
        LastIsLatest(vs, k, cmp);
      } else {
        EarlierStaysLatest(vs, k, cmp);
      }
    }
  }

  /** A last entry not older than the latest before it is the latest. */
  lemma LastIsLatest(vs: seq<VersionEntry>, k: nat, cmp: (string, string) -> int)
    requires TotalPreorder(cmp) && |vs| > 1
    requires IsLatestAt(vs[..|vs| - 1], k, cmp) && cmp(vs[|vs| - 1].version, vs[k].version) >= 0
    ensures IsLatestAt(vs, |vs| - 1, cmp)
  {
    var n := |vs| - 1;
    var x := vs[n].version;
    FlipOf(cmp, x, vs[k].version);
    forall j | 0 <= j < |vs| ensures cmp(vs[j].version, x) <= 0 {
      if j < n {
        assert vs[j] == vs[..n][j];
        NotAfterTransitive(cmp, vs[j].version, vs[k].version, x);
      } else {
        FlipOf(cmp, x, x);
      }
    }
  }

  /** A last entry older than the latest before it leaves that one the
      latest. */
  lemma EarlierStaysLatest(vs: seq<VersionEntry>, k: nat, cmp: (string, string) -> int)
    requires |vs| > 1
    requires IsLatestAt(vs[..|vs| - 1], k, cmp) && cmp(vs[|vs| - 1].version, vs[k].version) < 0
    ensures IsLatestAt(vs, k, cmp)
  {
    var init := vs[..|vs| - 1];
    assert forall j :: 0 <= j < |init| ==> vs[j] == init[j];
  }

  lemma FlipOf(cmp: (string, string) -> int, a: string, b: string)
    requires TotalPreorder(cmp)
    ensures cmp(a, b) == -cmp(b, a)
  {
  }

  lemma NotAfterTransitive(cmp: (string, string) -> int, a: string, b: string, c: string)
    requires TotalPreorder(cmp) && cmp(a, b) <= 0 && cmp(b, c) <= 0
    ensures cmp(a, c) <= 0
  {
  }

  /** The last element of the stable sort is the latest entry. */
  lemma {:induction false} LastOfSortIsLatest(vs: seq<VersionEntry>, cmp: (string, string) -> int)
    requires TotalPreorder(cmp) && |vs| > 0
    ensures StableSort(vs, cmp)[|vs| - 1] == vs[LatestIndex(vs, cmp)]
  {
    if |vs| > 1 {
      var init := vs[..|vs| - 1];
      LastOfSortIsLatest(init, cmp);
      var k := LatestIndex(init, cmp);
      FlipOf(cmp, vs[|vs| - 1].version, vs[k].version);
      LastOfSortStep(vs, cmp);
    }
  }

  /** One step of `LastOfSortIsLatest`: inserting the last entry moves it
      to the end exactly when it becomes the latest. */
  lemma LastOfSortStep(vs: seq<VersionEntry>, cmp: (string, string) -> int)
    requires |vs| > 1
    requires StableSort(vs[..|vs| - 1], cmp)[|vs| - 2] == vs[LatestIndex(vs[..|vs| - 1], cmp)]
    requires var k := LatestIndex(vs[..|vs| - 1], cmp);
      cmp(vs[|vs| - 1].version, vs[k].version) == -cmp(vs[k].version, vs[|vs| - 1].version)
    ensures StableSort(vs, cmp)[|vs| - 1] == vs[LatestIndex(vs, cmp)]
  {
    var init := vs[..|vs| - 1];
    var s := StableSort(init, cmp);
    var k := LatestIndex(init, cmp);
    var x := vs[|vs| - 1];
    SortOfSnoc(vs, cmp);
    InsertLast(s, x, cmp);
    LatestIndexStep(vs, cmp);
    assert s[|s| - 1] == vs[k] by {
      assert init[k] == vs[k];
    }
    if cmp(x.version, vs[k].version) >= 0 {
      assert StableSort(vs, cmp)[|vs| - 1] == x;
    } else {
      assert StableSort(vs, cmp)[|vs| - 1] == vs[k];
    }
  }

  lemma LatestIndexStep(vs: seq<VersionEntry>, cmp: (string, string) -> int)
    requires |vs| > 1
    ensures var k := LatestIndex(vs[..|vs| - 1], cmp);
      LatestIndex(vs, cmp) == if cmp(vs[|vs| - 1].version, vs[k].version) >= 0 then |vs| - 1 else k
  {
  }

  lemma SortOfSnoc(vs: seq<VersionEntry>, cmp: (string, string) -> int)
    requires |vs| > 0
    ensures StableSort(vs, cmp) == Insert(StableSort(vs[..|vs| - 1], cmp), vs[|vs| - 1], cmp)
  {
  }

  /** The element an insertion leaves at the end. */
  lemma InsertLast(s: seq<VersionEntry>, x: VersionEntry, cmp: (string, string) -> int)
    requires s != []
    ensures Insert(s, x, cmp)[|s|] == if cmp(s[|s| - 1].version, x.version) <= 0 then x else s[|s| - 1]
  {
  }

  /** The last element of the sorted non-deprecated versions, as both source
      files compute it. */
  function SelectLatest(vs: seq<VersionEntry>): Option<VersionEntry>
  {
    var available := Available(vs);
    if available == [] then None
    else Some(StableSort(available, Compare)[|available| - 1])
  }

  /** No version is selected exactly when every version is deprecated, in
      particular when there are none. */
  lemma SelectLatestNone(vs: seq<VersionEntry>)
    ensures SelectLatest(vs).None? <==> forall v :: v in vs ==> v.deprecated
  {
    var available := Available(vs);
    if available == [] {
      forall v | v in vs ensures v.deprecated {
        assert v in available <==> !v.deprecated;
      }
    } else {
      assert available[0] in available;
    }
  }

  /** Whatever sits at the latest index is not exceeded by any entry. */
  lemma LatestIsMaximal(vs: seq<VersionEntry>, k: int, cmp: (string, string) -> int)
    requires IsLatestAt(vs, k, cmp)
    ensures forall w :: w in vs ==> cmp(w.version, vs[k].version) <= 0
  {
    forall w | w in vs ensures cmp(w.version, vs[k].version) <= 0 {
      var j :| 0 <= j < |vs| && vs[j] == w;
    }
  }

  /** A selected version is a non-deprecated entry that no other
      non-deprecated entry exceeds, and, among those that compare equal to it,
      the last in registry order. */
  lemma SelectLatestSome(vs: seq<VersionEntry>)
    requires SelectLatest(vs).Some?
    ensures var r := SelectLatest(vs).value;
      && r in vs && !r.deprecated
      && (forall w :: w in vs && !w.deprecated ==> Compare(w.version, r.version) <= 0)
      && exists k :: IsLatestAt(Available(vs), k, Compare) && Available(vs)[k] == r
  {
    var available := Available(vs);
    CompareIsTotalPreorder();
    LastOfSortIsLatest(available, Compare);
    LatestIndexIsLatest(available, Compare);
    var k := LatestIndex(available, Compare);
    LatestIsMaximal(available, k, Compare);
    assert available[k] in available;
  }

  /** Splitting a string that starts with an ordinary character extends the
      first piece. */
  lemma SplitCons(c: char, s: string, sep: char)
    requires c != sep
    ensures Split([c] + s, sep) == [[c] + Split(s, sep)[0]] + Split(s, sep)[1..]
  {
    assert ([c] + s)[1..] == s;
  }

  /** Splitting a string that starts with the separator opens an empty piece. */
  lemma SplitSep(s: string, sep: char)
    ensures Split([sep] + s, sep) == [[]] + Split(s, sep)
  {
    assert ([sep] + s)[1..] == s;
  }

  /** The version string whose segments are the given numbers, each written
      in decimal and joined with dots. */
  function Render(xs: seq<nat>): (v: string)
    requires |xs| >= 1
  {
    Join(seq(|xs|, i requires 0 <= i < |xs| => Decimal(xs[i])), '.')
  }

  /** Reading the segments of a rendered version gives the numbers back. */
  lemma SegmentsOfRender(xs: seq<nat>)
    requires |xs| >= 1
    ensures Segments(Render(xs)) == xs
  {
    var parts := seq(|xs|, i requires 0 <= i < |xs| => Decimal(xs[i]));
    forall i | 0 <= i < |parts| ensures '.' !in parts[i] {
      assert AllDigits(parts[i]);
    }
    SplitJoin(parts, '.');
    forall i | 0 <= i < |xs| ensures SegmentValue(parts[i]) == xs[i] {
      ParseIntOfDecimal(xs[i]);
    }
  }

  /** "1.10.0" is later than "1.9.9": segments compare as numbers, not as
      text. */
  lemma TenIsAfterNine()
    ensures Compare(Render([1, 9, 9]), Render([1, 10, 0])) < 0
  {
    SegmentsOfRender([1, 9, 9]);
    SegmentsOfRender([1, 10, 0]);
    assert CompareFrom([1, 9, 9], [1, 10, 0], 1) == -1;
  }
}
