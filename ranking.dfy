/** What the statistics cards show from a bucket: the top personal records and the volume
    chart's series. */
module Ranking {
  import opened Domain
  import opened Statistics

  /** The sort comparator: `a` goes first when its date is later, or on the same date when its
      weight × reps is larger. */
  predicate Precedes(a: PrSet, b: PrSet)
  {
    a.date > b.date || (a.date == b.date && SetVolume(a.weight, a.reps) > SetVolume(b.weight, b.reps))
  }

  /** The comparator returns 0: same date and same weight × reps. */
  predicate Tied(a: PrSet, b: PrSet)
  {
    a.date == b.date && SetVolume(a.weight, a.reps) == SetVolume(b.weight, b.reps)
  }

  predicate Ranked(s: seq<PrSet>)
  {
    forall i, j :: 0 <= i < j < |s| ==> !Precedes(s[j], s[i])
  }

  /** Places `x` after every element it does not strictly precede. */
  function Insert(t: seq<PrSet>, x: PrSet): seq<PrSet>
  {
    if t == [] then [x]
    else if Precedes(x, t[0]) then [x] + t
    else [t[0]] + Insert(t[1..], x)
  }

  /** `prSets.sort(comparator)`, which is stable. */
  function SortPrs(s: seq<PrSet>): seq<PrSet>
  {
    if s == [] then [] else Insert(SortPrs(s[..|s| - 1]), s[|s| - 1])
  }

  lemma {:induction false} InsertPermutes(t: seq<PrSet>, x: PrSet)
    ensures multiset(Insert(t, x)) == multiset(t) + multiset{x}
  {
    if t == [] {
    } else if Precedes(x, t[0]) {
      assert Insert(t, x) == [x] + t;
    } else {
      var rest := t[1..];
      InsertPermutes(rest, x);
      assert Insert(t, x) == [t[0]] + Insert(rest, x);
      assert t == [t[0]] + rest;
      assert multiset([t[0]] + Insert(rest, x)) == multiset([t[0]]) + multiset(Insert(rest, x));
      assert multiset(t) == multiset([t[0]]) + multiset(rest);
    }
  }

  /** The sorted list is a permutation of the candidates. */
  lemma {:induction false} SortPrsPermutes(s: seq<PrSet>)
    ensures multiset(SortPrs(s)) == multiset(s)
  {
    if s != [] {
      SortPrsPermutes(s[..|s| - 1]);
      InsertPermutes(SortPrs(s[..|s| - 1]), s[|s| - 1]);
      assert s == s[..|s| - 1] + [s[|s| - 1]];
    }
  }

  lemma PrecedesRanked(x: PrSet, t: seq<PrSet>)
    requires Ranked(t) && t != [] && Precedes(x, t[0])
    ensures forall k :: 0 <= k < |t| ==> Precedes(x, t[k])
  {
    forall k | 0 <= k < |t|
      ensures Precedes(x, t[k])
    {
      if k > 0 {
        assert !Precedes(t[k], t[0]);
      }
    }
  }

  lemma {:induction false} InsertRanked(t: seq<PrSet>, x: PrSet)
    requires Ranked(t)
    ensures Ranked(Insert(t, x))
  {
    if t != [] {
      if Precedes(x, t[0]) {
        PrecedesRanked(x, t);
        var r := [x] + t;
        forall i, j | 0 <= i < j < |r|
          ensures !Precedes(r[j], r[i])
        {
          if i > 0 {
            assert r[i] == t[i - 1] && r[j] == t[j - 1];
          }
        }
      } else {
        var rest := t[1..];
        assert Ranked(rest) by {
          forall i, j | 0 <= i < j < |rest|
            ensures !Precedes(rest[j], rest[i])
          {
            assert rest[i] == t[i + 1] && rest[j] == t[j + 1];
          }
        }
        InsertRanked(rest, x);
        var ins := Insert(rest, x);
        var r := [t[0]] + ins;
        forall i, j | 0 <= i < j < |r|
          ensures !Precedes(r[j], r[i])
        {
          if i == 0 {
            InsertPermutes(rest, x);
            assert r[j] in multiset(ins);
            assert r[j] in multiset(rest) + multiset{x};
            if r[j] != x {
              assert r[j] in rest;
              var k :| 0 <= k < |rest| && rest[k] == r[j];
              assert t[k + 1] == r[j];
            }
          } else {
            assert r[i] == ins[i - 1] && r[j] == ins[j - 1];
          }
        }
      }
    }
  }

  /** The sorted list is ordered by the comparator. */
  lemma {:induction false} SortPrsRanked(s: seq<PrSet>)
    ensures Ranked(SortPrs(s))
  {
    if s != [] {
      SortPrsRanked(s[..|s| - 1]);
      InsertRanked(SortPrs(s[..|s| - 1]), s[|s| - 1]);
    }
  }

  /** The elements the comparator ties with `c`, in order. */
  function TiedWith(s: seq<PrSet>, c: PrSet): seq<PrSet>
  {
    if s == [] then [] else (if Tied(s[0], c) then [s[0]] else []) + TiedWith(s[1..], c)
  }

  lemma TiedWithCons(x: PrSet, s: seq<PrSet>, c: PrSet)
    ensures TiedWith([x] + s, c) == (if Tied(x, c) then [x] else []) + TiedWith(s, c)
  {
    assert ([x] + s)[1..] == s;
  }

  lemma {:induction false} TiedWithAppend(a: seq<PrSet>, b: seq<PrSet>, c: PrSet)
    ensures TiedWith(a + b, c) == TiedWith(a, c) + TiedWith(b, c)
  {
    if a == [] {
      assert a + b == b;
    } else {
      var t := a[1..];
      TiedWithAppend(t, b, c);
      assert a == [a[0]] + t;
      assert a + b == [a[0]] + (t + b);
      TiedWithCons(a[0], t + b, c);
      TiedWithCons(a[0], t, c);
      var h, x, y := if Tied(a[0], c) then [a[0]] else [], TiedWith(t, c), TiedWith(b, c);
      assert h + (x + y) == (h + x) + y;
    }
  }

  lemma {:induction false} NoneTied(t: seq<PrSet>, x: PrSet, c: PrSet)
    requires Tied(x, c)
    requires forall k :: 0 <= k < |t| ==> Precedes(x, t[k])
    ensures TiedWith(t, c) == []
  {
    if t != [] {
      NoneTied(t[1..], x, c);
    }
  }

  lemma {:induction false} InsertTiedWith(t: seq<PrSet>, x: PrSet, c: PrSet)
    requires Ranked(t)
    ensures TiedWith(Insert(t, x), c) == TiedWith(t, c) + (if Tied(x, c) then [x] else [])
  {
    if t == [] {
    } else if Precedes(x, t[0]) {
      TiedWithAppend([x], t, c);
      if Tied(x, c) {
        PrecedesRanked(x, t);
        NoneTied(t, x, c);
      }
    } else {
      var rest := t[1..];
      assert Ranked(rest) by {
        forall i, j | 0 <= i < j < |rest|
          ensures !Precedes(rest[j], rest[i])
        {
          assert rest[i] == t[i + 1] && rest[j] == t[j + 1];
        }
      }
      InsertTiedWith(rest, x, c);
      TiedWithAppend([t[0]], Insert(rest, x), c);
      TiedWithAppend([t[0]], rest, c);
      assert [t[0]] + rest == t;
    }
  }

  /** The sort is stable: elements the comparator ties keep their relative order. With
      `SortPrsRanked` and `SortPrsPermutes`, this fixes the result uniquely. */
  lemma {:induction false} SortPrsStable(s: seq<PrSet>, c: PrSet)
    ensures TiedWith(SortPrs(s), c) == TiedWith(s, c)
  {
    if s != [] {
      var init := s[..|s| - 1];
      var last := s[|s| - 1];
      SortPrsStable(init, c);
      SortPrsRanked(init);
      InsertTiedWith(SortPrs(init), last, c);
      TiedWithSnoc(init, last, c);
      assert init + [last] == s;
    }
  }

  lemma TiedWithSnoc(a: seq<PrSet>, x: PrSet, c: PrSet)
    ensures TiedWith(a + [x], c) == TiedWith(a, c) + (if Tied(x, c) then [x] else [])
  {
    TiedWithAppend(a, [x], c);
    assert [x][1..] == [];
  }

  /** The dedup key: the `${weight}-${reps}` string, as a pair. */
  function Key(p: PrSet): (real, int)
  {
    (p.weight, p.reps)
  }

  function KeysOf(s: seq<PrSet>): set<(real, int)>
  {
    set i | 0 <= i < |s| :: Key(s[i])
  }

  /** The first element for each key, in order. */
  function Dedup(s: seq<PrSet>): seq<PrSet>
  {
    if s == [] then []
    else
      var d := Dedup(s[..|s| - 1]);
      if Key(s[|s| - 1]) in KeysOf(d) then d else d + [s[|s| - 1]]
  }

  /** The first three of the deduplicated list. */
  function TopThree(s: seq<PrSet>): seq<PrSet>
  {
    var d := Dedup(s);
    if |d| <= 3 then d else d[..3]
  }

  lemma KeysOfSnoc(d: seq<PrSet>, x: PrSet)
    ensures KeysOf(d + [x]) == KeysOf(d) + {Key(x)}
  {
    assert forall i :: 0 <= i < |d| ==> (d + [x])[i] == d[i];
    assert (d + [x])[|d|] == x;
  }

  /** The deduplicated list has exactly the keys of the input. */
  lemma {:induction false} DedupKeys(s: seq<PrSet>)
    ensures KeysOf(Dedup(s)) == KeysOf(s)
  {
    if s != [] {
      var init := s[..|s| - 1];
      var x := s[|s| - 1];
      DedupKeys(init);
      KeysOfSnoc(init, x);
      assert init + [x] == s;
      if Key(x) !in KeysOf(Dedup(init)) {
        KeysOfSnoc(Dedup(init), x);
      }
    }
  }

  predicate DistinctKeys(d: seq<PrSet>)
  {
    forall i, j :: 0 <= i < j < |d| ==> Key(d[i]) != Key(d[j])
  }

  /** The deduplicated list has one element per key. */
  lemma {:induction false} DedupDistinct(s: seq<PrSet>)
    ensures DistinctKeys(Dedup(s))
  {
    if s != [] {
      var init := s[..|s| - 1];
      var x := s[|s| - 1];
      DedupDistinct(init);
      var d0 := Dedup(init);
      if Key(x) !in KeysOf(d0) {
        var d := d0 + [x];
        forall i, j | 0 <= i < j < |d|
          ensures Key(d[i]) != Key(d[j])
        {
          if j == |d0| {
            assert Key(d0[i]) in KeysOf(d0);
          } else {
            assert d[i] == d0[i] && d[j] == d0[j];
          }
        }
      }
    }
  }

  /** No element before position `i` has the key of `s[i]`. */
  predicate FirstWithKey(s: seq<PrSet>, i: int)
    requires 0 <= i < |s|
  {
    forall j :: 0 <= j < i ==> Key(s[j]) != Key(s[i])
  }

  /** `p` occurs in `s` at a position where its key occurs for the first time. */
  predicate FirstOccurrence(s: seq<PrSet>, p: PrSet)
  {
    exists i :: 0 <= i < |s| && s[i] == p && FirstWithKey(s, i)
  }

  /** Every element of `d` is an element of `s` that comes first with its key. */
  predicate FirstsOf(s: seq<PrSet>, d: seq<PrSet>)
  {
    forall k :: 0 <= k < |d| ==> FirstOccurrence(s, d[k])
  }

  /** A first occurrence stays first when the input grows at the end. */
  lemma FirstWithKeySnoc(init: seq<PrSet>, x: PrSet, i: int)
    requires 0 <= i < |init| && FirstWithKey(init, i)
    ensures FirstWithKey(init + [x], i) && (init + [x])[i] == init[i]
  {
    var s := init + [x];
    assert forall j :: 0 <= j < i ==> s[j] == init[j];
  }

  /** An element whose key the earlier elements lack is first with its key. */
  lemma NewKeyIsFirst(init: seq<PrSet>, x: PrSet)
    requires Key(x) !in KeysOf(init)
    ensures FirstWithKey(init + [x], |init|)
  {
    var s := init + [x];
    forall j | 0 <= j < |init|
      ensures Key(s[j]) != Key(x)
    {
      assert s[j] == init[j];
      assert Key(init[j]) in KeysOf(init);
    }
  }

  /** The position in `s` of the `k`-th element kept: the first with its key. */
  lemma {:induction false} KeptPosition(s: seq<PrSet>, k: nat) returns (i: nat)
    requires k < |Dedup(s)|
    ensures i < |s| && s[i] == Dedup(s)[k] && FirstWithKey(s, i)
  {
    var init := s[..|s| - 1];
    var x := s[|s| - 1];
    assert s == init + [x];
    var d0 := Dedup(init);
    if k < |d0| {
      i := KeptPosition(init, k);
      FirstWithKeySnoc(init, x, i);
    } else {
      DedupKeys(init);
      NewKeyIsFirst(init, x);
      i := |init|;
    }
  }

  /** Each element kept is the first element of the input with its key. */
  lemma DedupKeepsFirst(s: seq<PrSet>)
    ensures FirstsOf(s, Dedup(s))
  {
    forall k | 0 <= k < |Dedup(s)|
      ensures FirstOccurrence(s, Dedup(s)[k])
    {
      var i := KeptPosition(s, k);
    }
  }

  /** A longer input only appends to the deduplicated list. */
  lemma {:induction false} DedupPrefix(s: seq<PrSet>, m: nat)
    requires m <= |s|
    ensures |Dedup(s[..m])| <= |Dedup(s)|
    ensures Dedup(s)[..|Dedup(s[..m])|] == Dedup(s[..m])
  {
    if m < |s| {
      var init := s[..|s| - 1];
      assert init[..m] == s[..m];
      DedupPrefix(init, m);
    } else {
      assert s[..m] == s;
    }
  }

  lemma {:induction false} DistinctKeysCount(d: seq<PrSet>)
    requires DistinctKeys(d)
    ensures |KeysOf(d)| == |d|
  {
    if d != [] {
      var init := d[..|d| - 1];
      DistinctKeysCount(init);
      KeysOfSnoc(init, d[|d| - 1]);
      assert init + [d[|d| - 1]] == d;
      assert Key(d[|d| - 1]) !in KeysOf(init) by {
        forall i | 0 <= i < |init|
          ensures Key(init[i]) != Key(d[|d| - 1])
        {
          assert init[i] == d[i];
        }
      }
    }
  }

  /** The card shows three records, or one per distinct (weight, reps) when there are fewer. */
  lemma TopThreeSize(s: seq<PrSet>)
    ensures |TopThree(s)| == if |KeysOf(s)| < 3 then |KeysOf(s)| else 3
  {
    DedupKeys(s);
    DedupDistinct(s);
    DistinctKeysCount(Dedup(s));
  }

  /** The `for … of` loop over the sorted candidates, with its `Set` of seen keys and its
      `break` once three are kept. */
  method SelectTopPrs(sorted: seq<PrSet>) returns (top: seq<PrSet>)
    ensures top == TopThree(sorted)
  {
    top := [];
    var seen: set<(real, int)> := {};
    var i := 0;
    while i < |sorted|
      invariant 0 <= i <= |sorted|
      invariant top == Dedup(sorted[..i]) && seen == KeysOf(top) && |top| < 3
    {
      var pr := sorted[i];
      var key := (pr.weight, pr.reps);
      assert sorted[..i + 1][..i] == sorted[..i];
      if key !in seen {
        KeysOfSnoc(top, pr);
        top := top + [pr];
        seen := seen + {key};
        if |top| >= 3 {
          DedupPrefix(sorted, i + 1);
          return;
        }
      }
      i := i + 1;
    }
    assert sorted[..i] == sorted;
  }

  /** The card's record list: the candidates sorted, then the first three distinct ones. */
  function TopPrs(st: Stats): seq<PrSet>
  {
    TopThree(SortPrs(st.prs))
  }

  /** Sets (100 kg x 5) on day 2, (100 kg x 5) on day 1 and (80 kg x 10) on day 3 rank as
      (80 x 10) on day 3, then (100 x 5) on day 2: the later date wins before the larger
      volume, and the older duplicate is dropped. */
  lemma TopPrsExample()
    ensures TopThree(SortPrs([PrSet(100.0, 5, 2), PrSet(100.0, 5, 1), PrSet(80.0, 10, 3)]))
         == [PrSet(80.0, 10, 3), PrSet(100.0, 5, 2)]
  {
    var a, b, c := PrSet(100.0, 5, 2), PrSet(100.0, 5, 1), PrSet(80.0, 10, 3);
    ExampleSorted(a, b, c);
    ExampleDeduped(a, b, c);
  }

  lemma ExampleSorted(a: PrSet, b: PrSet, c: PrSet)
    requires a == PrSet(100.0, 5, 2) && b == PrSet(100.0, 5, 1) && c == PrSet(80.0, 10, 3)
    ensures SortPrs([a, b, c]) == [c, a, b]
  {
    ExampleSortedPair(a, b);
    assert [a, b, c][..2] == [a, b];
    assert SortPrs([a, b, c]) == Insert([a, b], c);
    assert Precedes(c, a);
    assert Insert([a, b], c) == [c] + [a, b];
  }

  lemma ExampleSortedPair(a: PrSet, b: PrSet)
    requires a == PrSet(100.0, 5, 2) && b == PrSet(100.0, 5, 1)
    ensures SortPrs([a, b]) == [a, b]
  {
    assert [a, b][..1] == [a];
    assert SortPrs([a]) == [a];
    assert !Precedes(b, a);
    assert Insert([a], b) == [a] + Insert([], b);
  }

  lemma ExampleDeduped(a: PrSet, b: PrSet, c: PrSet)
    requires a == PrSet(100.0, 5, 2) && b == PrSet(100.0, 5, 1) && c == PrSet(80.0, 10, 3)
    ensures TopThree([c, a, b]) == [c, a]
  {
    assert [c, a, b][..2] == [c, a] && [c, a][..1] == [c];
    assert Dedup([c]) == [c];
    assert KeysOf([c]) == {Key(c)};
    KeysOfSnoc([c], a);
    assert [c] + [a] == [c, a];
    assert Dedup([c, a]) == [c, a];
    assert Key(b) in KeysOf([c, a]);
  }

  /** The dates of the day buckets in ascending order. */
  ghost function AscendingDates(s: set<Date>): (r: seq<Date>)
    decreases |s|
  {
    if s == {} then []
    else
      var m := Earliest(s);
      [m] + AscendingDates(s - {m})
  }

  ghost function Earliest(s: set<Date>): (m: Date)
    requires s != {}
    ensures m in s && forall d :: d in s ==> m <= d
    decreases |s|
  {
    HasElement(s);
    var x :| x in s;
    if s == {x} then x
    else
      var y := Earliest(s - {x});
      assert forall d :: d in s ==> d == x || d in s - {x};
      if x < y then x else y
  }

  lemma HasElement(s: set<Date>)
    requires s != {}
    ensures exists x :: x in s
  {
    if forall x :: x !in s {
      assert false;
    }
  }

  predicate StrictlyAscending(r: seq<Date>)
  {
    forall i, j :: 0 <= i < j < |r| ==> r[i] < r[j]
  }

  lemma {:induction false} AscendingDatesLength(s: set<Date>)
    ensures |AscendingDates(s)| == |s|
    decreases |s|
  {
    if s != {} {
      var m := Earliest(s);
      AscendingDatesLength(s - {m});
    }
  }

  lemma {:induction false} AscendingDatesMembers(s: set<Date>)
    ensures forall d :: d in s <==> d in AscendingDates(s)
    decreases |s|
  {
    if s != {} {
      var m := Earliest(s);
      AscendingDatesMembers(s - {m});
      assert AscendingDates(s) == [m] + AscendingDates(s - {m});
    }
  }

  lemma {:induction false} AscendingDatesSorted(s: set<Date>)
    ensures StrictlyAscending(AscendingDates(s))
    decreases |s|
  {
    if s != {} {
      var m := Earliest(s);
      AscendingDatesSorted(s - {m});
      AscendingDatesMembers(s - {m});
      var rest := AscendingDates(s - {m});
      var r := [m] + rest;
      assert r == AscendingDates(s);
      forall i, j | 0 <= i < j < |r|
        ensures r[i] < r[j]
      {
        assert r[j] == rest[j - 1];
        if i == 0 {
          assert rest[j - 1] in s - {m};
        } else {
          assert r[i] == rest[i - 1];
        }
      }
    }
  }

  /** The ascending list holds each date once, smallest first. */
  lemma AscendingDatesSpec(s: set<Date>)
    ensures |AscendingDates(s)| == |s|
    ensures forall d :: d in s <==> d in AscendingDates(s)
    ensures StrictlyAscending(AscendingDates(s))
  {
    AscendingDatesLength(s);
    AscendingDatesMembers(s);
    AscendingDatesSorted(s);
  }

  /** The volume of each listed day, in the order of the list. */
  function Volumes(daily: map<Date, Daily>, labels: seq<Date>): (v: seq<real>)
    requires forall i :: 0 <= i < |labels| ==> labels[i] in daily
    ensures |v| == |labels|
    ensures forall i :: 0 <= i < |labels| ==> v[i] == daily[labels[i]].volume
  {
    seq(|labels|, i requires 0 <= i < |labels| => daily[labels[i]].volume)
  }

  /** The chart of a bucket: drawn only with two or more days, dates ascending, one volume
      per date. */
  ghost function ChartSeries(st: Stats): (r: Option<(seq<Date>, seq<real>)>)
    ensures r.Some? <==> |st.daily.Keys| > 1
    ensures r.Some? ==> |r.value.0| == |r.value.1| == |st.daily.Keys|
    ensures r.Some? ==> StrictlyAscending(r.value.0)
    ensures r.Some? ==> forall d :: d in st.daily <==> d in r.value.0
    ensures r.Some? ==> forall i :: 0 <= i < |r.value.0| ==>
      r.value.0[i] in st.daily && r.value.1[i] == st.daily[r.value.0[i]].volume
  {
    AscendingDatesSpec(st.daily.Keys);
    var labels := AscendingDates(st.daily.Keys);
    if |labels| > 1 then Some((labels, Volumes(st.daily, labels))) else None
  }

  /** With `Consistent` buckets, each chart point is the volume of the sets logged that day. */
  lemma ChartPointsAreDayVolumes(st: Stats, i: nat)
    requires Consistent(st) && ChartSeries(st).Some? && i < |ChartSeries(st).value.0|
    ensures ChartSeries(st).value.1[i] == DayVolume(st.prs, ChartSeries(st).value.0[i])
  {
  }

  function Sum(xs: seq<real>): real
  {
    if xs == [] then 0.0 else Sum(xs[..|xs| - 1]) + xs[|xs| - 1]
  }

  lemma {:induction false} VolumesSum(daily: map<Date, Daily>, labels: seq<Date>)
    requires forall i :: 0 <= i < |labels| ==> labels[i] in daily
    ensures Sum(Volumes(daily, labels)) == DailyVolumes(daily, labels)
  {
    if labels != [] {
      var init := labels[..|labels| - 1];
      VolumesSum(daily, init);
      assert Volumes(daily, labels)[..|init|] == Volumes(daily, init);
    }
  }

  /** The points of a machine's chart add up to its total volume, and its day buckets hold
      every set once. */
  lemma ChartSumsToTotal(st: Stats)
    requires Consistent(st) && ChartSeries(st).Some?
    ensures Sum(ChartSeries(st).value.1) == st.totalVolume
    ensures DailySets(st.daily, ChartSeries(st).value.0) == |st.prs|
  {
    var labels := ChartSeries(st).value.0;
    assert NoRepeats(labels);
    VolumesSum(st.daily, labels);
    assert ChartSeries(st).value.1 == Volumes(st.daily, labels);
    DailySums(st, labels);
  }
}
