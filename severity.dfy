/** The severity ranking of `analyze_logs`: the position of a record's
    upper-cased `Severity` in `["CRITICAL", "HIGH", "MEDIUM", "LOW", "UNKNOWN"]`,
    and a stable sort by that position, which is what Python's `sorted` with
    that key computes. */
module Severity {
  import opened Wrappers
  import opened Strings
  import opened Report
  import opened KeySort
  import opened SeverityNames

  /** `xs.index(x)`: the first position of `x`, or `None` where Python raises
      `ValueError`. */
  function IndexOf(xs: seq<string>, x: string): (r: Option<nat>)
    ensures r.Some? ==> r.value < |xs| && xs[r.value] == x && forall j :: 0 <= j < r.value ==> xs[j] != x
    ensures r.None? <==> x !in xs
  {
    if xs == [] then None
    else if xs[0] == x then Some(0)
    else match IndexOf(xs[1..], x)
      case Some(k) => Some(k + 1)
      case None => None
  }

  /** The name a record is ranked by: `v.get("Severity", "UNKNOWN").upper()`. */
  function SeverityName(v: Vulnerability): (r: string)
    ensures v.severity.None? ==> r == "UNKNOWN"
    ensures v.severity.Some? ==> |r| == |v.severity.value|
    ensures forall i :: 0 <= i < |r| ==> !IsAsciiLower(r[i])
  {
    match v.severity
    case Some(s) => UpperLetters(s); Upper(s)
    case None => "UNKNOWN"
  }

  /** The record's severity name is one of the five in the ranking list. */
  predicate Ranked(v: Vulnerability)
    ensures Ranked(v) <==> SeverityName(v) in SeverityOrder
  {
    IndexOf(SeverityOrder, SeverityName(v)).Some?
  }

  predicate AllRanked(vs: seq<Vulnerability>) {
    forall i :: 0 <= i < |vs| ==> Ranked(vs[i])
  }

  /** The sort key of a ranked record: 0 for CRITICAL up to 4 for UNKNOWN. */
  function Rank(v: Vulnerability): (k: nat)
    requires Ranked(v)
    ensures k < |SeverityOrder| && SeverityOrder[k] == SeverityName(v)
  {
    IndexOf(SeverityOrder, SeverityName(v)).value
  }

  /** The rank of a record is the position of its severity name: the five
      names are distinct, so `index` finds exactly that one. */
  lemma RankFromName(v: Vulnerability, k: nat)
    requires k < |SeverityOrder| && SeverityName(v) == SeverityOrder[k]
    ensures Ranked(v) && Rank(v) == k
  {
    var r := IndexOf(SeverityOrder, SeverityName(v));
    assert r.Some?;
    assert SeverityOrder[r.value] == SeverityOrder[k];
  }

  /** Ranking ignores the case of `Severity`, and a record without `Severity`
      ranks as UNKNOWN, last. */
  lemma RankIgnoresCase(v: Vulnerability, w: Vulnerability)
    requires v.severity.Some? && w.severity.Some?
    requires |v.severity.value| == |w.severity.value|
    requires forall i :: 0 <= i < |v.severity.value| ==> SameIgnoringCase(v.severity.value[i], w.severity.value[i])
    ensures Ranked(v) <==> Ranked(w)
    ensures Ranked(v) ==> Rank(v) == Rank(w)
  {
    UpperIgnoresCase(v.severity.value, w.severity.value);
  }

  lemma MissingSeverityIsUnknown(v: Vulnerability)
    requires v.severity.None?
    ensures Ranked(v) && Rank(v) == |SeverityOrder| - 1
  {
  }

  /** The position of the first record whose severity is not one of the
      five names, if any. */
  function FirstUnranked(vs: seq<Vulnerability>): (r: Option<nat>)
    ensures r.None? <==> AllRanked(vs)
    ensures r.Some? ==> r.value < |vs| && !Ranked(vs[r.value]) && forall j :: 0 <= j < r.value ==> Ranked(vs[j])
  {
    if vs == [] then None
    else if !Ranked(vs[0]) then Some(0)
    else
      var rest := FirstUnranked(vs[1..]);
      if rest.None? then None else Some(rest.value + 1)
  }

  /** The key computation of `sorted(vs, key=...)`: every record paired with
      its rank, in order, or the upper-cased name of the first record whose
      severity is not in the ranking list (there `list.index` raises
      `ValueError`, before any comparison is made). */
  function Decorate(vs: seq<Vulnerability>): (r: Result<seq<Keyed<Vulnerability>>, string>)
    ensures r.Success? <==> AllRanked(vs)
    ensures r.Success? ==> |r.value| == |vs| && forall i :: 0 <= i < |vs| ==> r.value[i] == Keyed(Rank(vs[i]), vs[i])
    ensures r.Failure? ==> exists i :: 0 <= i < |vs| && !Ranked(vs[i]) && (forall j :: 0 <= j < i ==> Ranked(vs[j])) && r.error == SeverityName(vs[i])
  {
    match FirstUnranked(vs)
    case Some(i) => Failure(SeverityName(vs[i]))
    case None => Success(seq(|vs|, i requires 0 <= i < |vs| => Keyed(Rank(vs[i]), vs[i])))
  }

  /** Every entry's key is its record's rank. */
  predicate WellKeyed(s: seq<Keyed<Vulnerability>>) {
    forall i :: 0 <= i < |s| ==> Ranked(s[i].item) && s[i].key == Rank(s[i].item)
  }

  /** The records of `vs` of rank `k`, in their order in `vs`. */
  function OfRank(vs: seq<Vulnerability>, k: nat): seq<Vulnerability>
    requires AllRanked(vs)
  {
    if vs == [] then []
    else (if Rank(vs[0]) == k then [vs[0]] else []) + OfRank(vs[1..], k)
  }

  /** Dropping the keys of a decorated list gives back the records. */
  lemma DecoratedItems(vs: seq<Vulnerability>)
    requires AllRanked(vs)
    ensures WellKeyed(Decorate(vs).value) && Items(Decorate(vs).value) == vs
  {
    var keyed := Decorate(vs).value;
    forall i | 0 <= i < |vs| ensures Items(keyed)[i] == vs[i] {
      ItemsAt(keyed, i);
    }
  }

  /** Sorting keeps every entry, so the sorted entries are well keyed too. */
  lemma SortedWellKeyed(s: seq<Keyed<Vulnerability>>)
    requires WellKeyed(s)
    ensures WellKeyed(SortByKey(s))
  {
    var sorted := SortByKey(s);
    forall i | 0 <= i < |sorted| ensures Ranked(sorted[i].item) && sorted[i].key == Rank(sorted[i].item) {
      assert sorted[i] in multiset(s);
    }
  }

  lemma ItemsRanked(s: seq<Keyed<Vulnerability>>)
    requires WellKeyed(s)
    ensures AllRanked(Items(s))
  {
    forall i | 0 <= i < |s| ensures Ranked(Items(s)[i]) {
      ItemsAt(s, i);
    }
  }

  lemma OfRankCons(v: Vulnerability, t: seq<Vulnerability>, k: nat)
    requires Ranked(v) && AllRanked(t)
    ensures AllRanked([v] + t)
    ensures OfRank([v] + t, k) == (if Rank(v) == k then [v] else []) + OfRank(t, k)
  {
    assert ([v] + t)[1..] == t;
  }

  /** For a well-keyed list, keeping the records of rank `k` and keeping the
      entries of key `k` agree. */
  lemma {:induction false} ItemsOfKey(s: seq<Keyed<Vulnerability>>, k: nat)
    requires WellKeyed(s)
    ensures AllRanked(Items(s)) && OfRank(Items(s), k) == Items(OfKey(s, k))
  {
    ItemsRanked(s);
    if s != [] {
      var x, t := s[0], s[1..];
      assert s == [x] + t;
      assert Ranked(x.item) && Rank(x.item) == x.key;
      assert WellKeyed(t);
      ItemsRanked(t);
      ItemsOfKey(t, k);
      ItemsCons(x, t);
      assert Items(s) == [x.item] + Items(t);
      OfRankCons(x.item, Items(t), k);
      OfKeyCons(x, t, k);
      assert OfKey(s, k) == (if x.key == k then [x] else []) + OfKey(t, k);
      if x.key == k {
        ItemsCons(x, OfKey(t, k));
        assert Items(OfKey(s, k)) == [x.item] + OfRank(Items(t), k);
      } else {
        assert OfKey(s, k) == OfKey(t, k);
        assert OfRank(Items(s), k) == OfRank(Items(t), k);
      }
    }
  }

  /** `sorted(vs, key=lambda v: severity_order.index(...))`: the records,
      most severe first, as a permutation of `vs`. */
  function SortBySeverity(vs: seq<Vulnerability>): (r: seq<Vulnerability>)
    requires AllRanked(vs)
    ensures |r| == |vs| && AllRanked(r)
    ensures forall i, j :: 0 <= i < j < |r| ==> Rank(r[i]) <= Rank(r[j])
    ensures multiset(r) == multiset(vs)
  {
    var keyed := Decorate(vs).value;
    var sorted := SortByKey(keyed);
    DecoratedItems(vs);
    SortedWellKeyed(keyed);
    SortKeepsItems(keyed);
    ItemsOfKey(sorted, 0);
    assert forall i :: 0 <= i < |sorted| ==> Items(sorted)[i] == sorted[i].item by {
      forall i | 0 <= i < |sorted| ensures Items(sorted)[i] == sorted[i].item {
        ItemsAt(sorted, i);
      }
    }
    Items(sorted)
  }

  /** Stability: for every rank, the sorted list holds the records of that
      rank in their order in `vs`. */
  lemma SortBySeverityIsStable(vs: seq<Vulnerability>, k: nat)
    requires AllRanked(vs)
    ensures OfRank(SortBySeverity(vs), k) == OfRank(vs, k)
  {
    var keyed := Decorate(vs).value;
    DecoratedItems(vs);
    SortedWellKeyed(keyed);
    ItemsOfKey(SortByKey(keyed), k);
    ItemsOfKey(keyed, k);
    SortIsStable(keyed, k);
  }

  /** `i` is the position of the earliest record among those of the least rank. */
  predicate IsFirstMostSevere(vs: seq<Vulnerability>, i: int)
    requires AllRanked(vs)
  {
    && 0 <= i < |vs|
    && (forall j :: 0 <= j < |vs| ==> Rank(vs[i]) <= Rank(vs[j]))
    && (forall j :: 0 <= j < i ==> Rank(vs[i]) < Rank(vs[j]))
  }

  /** The first most severe record, found as the first entry of least key in
      the decorated list. */
  function FirstMostSevere(vs: seq<Vulnerability>): (i: nat)
    requires AllRanked(vs) && vs != []
    ensures IsFirstMostSevere(vs, i)
  {
    var keyed := Decorate(vs).value;
    var i := FirstLeast(keyed);
    assert forall j :: 0 <= j < |vs| ==> keyed[j].key == Rank(vs[j]);
    i
  }

  /** Only one position is the first most severe. */
  lemma FirstMostSevereIsUnique(vs: seq<Vulnerability>, i: int)
    requires AllRanked(vs) && IsFirstMostSevere(vs, i)
    ensures vs != [] && i == FirstMostSevere(vs)
  {
    var m := FirstMostSevere(vs);
    assert Rank(vs[i]) == Rank(vs[m]);
    assert !(i < m) && !(m < i);
  }

  /** The head of the sorted list is the first most severe record. */
  lemma SortHeadIsFirstMostSevere(vs: seq<Vulnerability>)
    requires AllRanked(vs) && vs != []
    ensures SortBySeverity(vs)[0] == vs[FirstMostSevere(vs)]
  {
    var keyed := Decorate(vs).value;
    SortHeadIsFirstLeast(keyed);
    ItemsAt(SortByKey(keyed), 0);
  }
}
