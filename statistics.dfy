/** The statistics pass: one bucket per machine, filled by a fold over every logged set. */
module Statistics {
  import opened Domain

  /** A logged set with the date it was done on: a candidate for the PR list. */
  datatype PrSet = PrSet(weight: real, reps: int, date: Date)

  /** One day's bucket for the volume chart. */
  datatype Daily = Daily(volume: real, sets: nat)

  /** A machine's bucket. `maxReps` is the best rep count at `maxWeight`. */
  datatype Stats = Stats(
    name: string, image: Option<string>,
    totalVolume: real, totalReps: int,
    maxWeight: real, maxReps: int,
    lastDate: Date, workoutCount: nat,
    prs: seq<PrSet>, daily: map<Date, Daily>)

  /** An entry together with the date of the record holding it. */
  datatype Dated = Dated(date: Date, entry: Entry)

  function SetVolume(weight: real, reps: int): real
  {
    weight * (reps as real)
  }

  /** A fresh bucket, named after the first entry seen for the machine. */
  function Seed(e: Entry): Stats
  {
    Stats(e.machineName, e.machineImage, 0.0, 0, 0.0, 0, Epoch, 0, [], map[])
  }

  /** The per-entry part of the fold: count the entry, move the last date forward, and open
      the day's bucket. */
  function Open(st: Stats, date: Date): (r: Stats)
    ensures date in r.daily
  {
    st.(workoutCount := st.workoutCount + 1,
        lastDate := if date > st.lastDate then date else st.lastDate,
        daily := if date in st.daily then st.daily else st.daily[date := Daily(0.0, 0)])
  }

  /** The per-set part of the fold. */
  function AddSet(st: Stats, date: Date, s: SetRow): (r: Stats)
    requires date in st.daily
    ensures r.daily.Keys == st.daily.Keys
    ensures r.prs == st.prs + [PrSet(s.weight, s.reps, date)]
    ensures r.name == st.name && r.image == st.image
    ensures r.workoutCount == st.workoutCount && r.lastDate == st.lastDate
  {
    var v := SetVolume(s.weight, s.reps);
    var day := st.daily[date];
    st.(totalVolume := st.totalVolume + v,
        daily := st.daily[date := Daily(day.volume + v, day.sets + 1)],
        totalReps := st.totalReps + s.reps,
        maxWeight := if s.weight > st.maxWeight then s.weight else st.maxWeight,
        maxReps := if s.weight > st.maxWeight then s.reps
                   else if s.weight == st.maxWeight && s.reps > st.maxReps then s.reps
                   else st.maxReps,
        prs := st.prs + [PrSet(s.weight, s.reps, date)])
  }

  function AddSets(st: Stats, date: Date, sets: seq<SetRow>): (r: Stats)
    requires date in st.daily
    ensures r.daily.Keys == st.daily.Keys
    ensures r.prs == st.prs + SetPrs(sets, date)
    ensures r.name == st.name && r.image == st.image
    ensures r.workoutCount == st.workoutCount && r.lastDate == st.lastDate
  {
    if sets == [] then st else AddSet(AddSets(st, date, sets[..|sets| - 1]), date, sets[|sets| - 1])
  }

  function AddEntry(st: Stats, d: Dated): Stats
  {
    AddSets(Open(st, d.date), d.date, d.entry.sets)
  }

  /** The fold's step: the entry's bucket, created on first sight, updated with the entry. */
  function Step(m: map<Id, Stats>, d: Dated): map<Id, Stats>
  {
    var id := d.entry.machineId;
    m[id := AddEntry(if id in m then m[id] else Seed(d.entry), d)]
  }

  /** The fold over entries from a given set of buckets. */
  function FoldFrom(m: map<Id, Stats>, ds: seq<Dated>): map<Id, Stats>
  {
    if ds == [] then m else Step(FoldFrom(m, ds[..|ds| - 1]), ds[|ds| - 1])
  }

  function Fold(ds: seq<Dated>): map<Id, Stats>
  {
    FoldFrom(map[], ds)
  }

  lemma {:induction false} FoldFromAppend(m: map<Id, Stats>, a: seq<Dated>, b: seq<Dated>)
    ensures FoldFrom(m, a + b) == FoldFrom(FoldFrom(m, a), b)
  {
    if b != [] {
      var init, x := b[..|b| - 1], b[|b| - 1];
      FoldFromAppend(m, a, init);
      assert (a + b)[..|a + b| - 1] == a + init && (a + b)[|a + b| - 1] == x;
      assert FoldFrom(m, a + b) == Step(FoldFrom(m, a + init), x);
    } else {
      assert a + b == a;
    }
  }

  function DatedEntries(w: Workout): (r: seq<Dated>)
    ensures |r| == |w.exercises|
    ensures forall i :: 0 <= i < |r| ==> r[i] == Dated(w.date, w.exercises[i])
  {
    seq(|w.exercises|, i requires 0 <= i < |w.exercises| => Dated(w.date, w.exercises[i]))
  }

  /** The PR candidates an entry contributes: its sets, dated. */
  function SetPrs(sets: seq<SetRow>, date: Date): (r: seq<PrSet>)
    ensures |r| == |sets|
  {
    if sets == [] then []
    else SetPrs(sets[..|sets| - 1], date) + [PrSet(sets[|sets| - 1].weight, sets[|sets| - 1].reps, date)]
  }

  /** Every entry of every record, in stored order. */
  function Flatten(ws: seq<Workout>): seq<Dated>
  {
    if ws == [] then [] else Flatten(ws[..|ws| - 1]) + DatedEntries(ws[|ws| - 1])
  }

  /** The buckets of `renderStatistics`, keyed by machine id. */
  function Aggregate(ws: seq<Workout>): map<Id, Stats>
  {
    Fold(Flatten(ws))
  }

  /** The nested `forEach` loops over records and entries. */
  method ComputeStatistics(ws: seq<Workout>) returns (machineStats: map<Id, Stats>)
    ensures machineStats == Aggregate(ws)
  {
    machineStats := map[];
    for i := 0 to |ws|
      invariant machineStats == Fold(Flatten(ws[..i]))
    {
      assert ws[..i + 1][..i] == ws[..i];
      FoldFromAppend(map[], Flatten(ws[..i]), DatedEntries(ws[i]));
      machineStats := TallyWorkout(machineStats, ws[i]);
    }
    assert ws[..|ws|] == ws;
  }

  /** The `forEach` over one record's entries. */
  method TallyWorkout(machineStats: map<Id, Stats>, w: Workout) returns (m: map<Id, Stats>)
    ensures m == FoldFrom(machineStats, DatedEntries(w))
  {
    m := machineStats;
    for j := 0 to |w.exercises|
      invariant m == FoldFrom(machineStats, DatedEntries(w)[..j])
    {
      assert DatedEntries(w)[..j + 1][..j] == DatedEntries(w)[..j];
      m := TallyEntry(m, w.date, w.exercises[j]);
    }
    assert DatedEntries(w)[..|w.exercises|] == DatedEntries(w);
  }

  /** One entry: its bucket created on first sight, counted, dated and opened for the day,
      then every set added. */
  method TallyEntry(machineStats: map<Id, Stats>, date: Date, e: Entry) returns (m: map<Id, Stats>)
    ensures m == Step(machineStats, Dated(date, e))
  {
    var st := if e.machineId in machineStats then machineStats[e.machineId] else Seed(e);
    ghost var started := Open(st, date);
    st := st.(workoutCount := st.workoutCount + 1);
    if date > st.lastDate {
      st := st.(lastDate := date);
    }
    if date !in st.daily {
      st := st.(daily := st.daily[date := Daily(0.0, 0)]);
    }
    assert st == started;
    st := TallySets(st, date, e.sets);
    m := machineStats[e.machineId := st];
  }

  /** The `forEach` over an entry's sets. */
  method TallySets(st: Stats, date: Date, sets: seq<SetRow>) returns (r: Stats)
    requires date in st.daily
    ensures r == AddSets(st, date, sets)
  {
    r := st;
    for k := 0 to |sets|
      invariant date in r.daily
      invariant r == AddSets(st, date, sets[..k])
    {
      assert sets[..k + 1][..k] == sets[..k];
      r := AddSet(r, date, sets[k]);
    }
    assert sets[..|sets|] == sets;
  }

  /** The entries of one machine, in order. */
  function Only(ds: seq<Dated>, id: Id): (r: seq<Dated>)
    ensures |r| <= |ds|
    ensures forall i :: 0 <= i < |r| ==> r[i].entry.machineId == id
  {
    if ds == [] then []
    else Only(ds[..|ds| - 1], id) + (if ds[|ds| - 1].entry.machineId == id then [ds[|ds| - 1]] else [])
  }

  /** A bucket run over a sequence of entries. */
  function Run(st: Stats, ds: seq<Dated>): Stats
  {
    if ds == [] then st else AddEntry(Run(st, ds[..|ds| - 1]), ds[|ds| - 1])
  }

  /** The buckets do not interfere: a machine has a bucket exactly when it has an entry, and
      its bucket is the run over its own entries from a bucket named after the first one. */
  lemma {:induction false} FoldBuckets(ds: seq<Dated>, id: Id)
    ensures id in Fold(ds) <==> Only(ds, id) != []
    ensures id in Fold(ds) ==> Fold(ds)[id] == Run(Seed(Only(ds, id)[0].entry), Only(ds, id))
  {
    if ds != [] {
      var init := ds[..|ds| - 1];
      var d := ds[|ds| - 1];
      FoldBuckets(init, id);
      var o := Only(init, id);
      if d.entry.machineId == id {
        assert Only(ds, id) == o + [d];
        assert (o + [d])[..|o|] == o;
        if o != [] {
          assert (o + [d])[0] == o[0];
        }
      } else {
        assert Only(ds, id) == o;
      }
    }
  }

  function AllPrs(ds: seq<Dated>): seq<PrSet>
  {
    if ds == [] then [] else AllPrs(ds[..|ds| - 1]) + SetPrs(ds[|ds| - 1].entry.sets, ds[|ds| - 1].date)
  }

  function TotalVolume(prs: seq<PrSet>): real
  {
    if prs == [] then 0.0
    else TotalVolume(prs[..|prs| - 1]) + SetVolume(prs[|prs| - 1].weight, prs[|prs| - 1].reps)
  }

  function TotalReps(prs: seq<PrSet>): int
  {
    if prs == [] then 0 else TotalReps(prs[..|prs| - 1]) + prs[|prs| - 1].reps
  }

  function DayVolume(prs: seq<PrSet>, date: Date): real
  {
    if prs == [] then 0.0
    else
      var last := prs[|prs| - 1];
      DayVolume(prs[..|prs| - 1], date) + (if last.date == date then SetVolume(last.weight, last.reps) else 0.0)
  }

  function DaySets(prs: seq<PrSet>, date: Date): nat
  {
    if prs == [] then 0
    else DaySets(prs[..|prs| - 1], date) + (if prs[|prs| - 1].date == date then 1 else 0)
  }

  function Dates(ds: seq<Dated>): set<Date>
  {
    set i | 0 <= i < |ds| :: ds[i].date
  }

  /** The heaviest weight among the sets (0 when there are none heavier), and the best reps
      among the sets at that weight (0 when there are none). */
  predicate HeaviestSet(st: Stats)
  {
    && st.maxWeight >= 0.0
    && (forall i :: 0 <= i < |st.prs| ==> st.prs[i].weight <= st.maxWeight)
    && (forall i :: 0 <= i < |st.prs| && st.prs[i].weight == st.maxWeight ==> st.prs[i].reps <= st.maxReps)
    && ((st.maxWeight == 0.0 && st.maxReps == 0)
        || exists i :: 0 <= i < |st.prs| && st.prs[i].weight == st.maxWeight && st.prs[i].reps == st.maxReps)
  }

  /** The bucket's running figures agree with its PR candidates. */
  predicate Consistent(st: Stats)
  {
    && st.totalVolume == TotalVolume(st.prs)
    && st.totalReps == TotalReps(st.prs)
    && HeaviestSet(st)
    && (forall i :: 0 <= i < |st.prs| ==> st.prs[i].date in st.daily)
    && (forall date :: date in st.daily ==>
          st.daily[date] == Daily(DayVolume(st.prs, date), DaySets(st.prs, date)))
  }

  lemma AddSetConsistent(st: Stats, date: Date, s: SetRow)
    requires date in st.daily && Consistent(st)
    ensures Consistent(AddSet(st, date, s))
  {
    var r := AddSet(st, date, s);
    assert r.prs[..|st.prs|] == st.prs;
    assert forall i :: 0 <= i < |st.prs| ==> r.prs[i] == st.prs[i];
    assert HeaviestSet(r) by {
      if !(s.weight > st.maxWeight) && !(s.weight == st.maxWeight && s.reps > st.maxReps) {
        if !(st.maxWeight == 0.0 && st.maxReps == 0) {
          var i :| 0 <= i < |st.prs| && st.prs[i].weight == st.maxWeight && st.prs[i].reps == st.maxReps;
          assert r.prs[i] == st.prs[i];
        }
      }
    }
  }

  lemma {:induction false} AddSetsConsistent(st: Stats, date: Date, sets: seq<SetRow>)
    requires date in st.daily && Consistent(st)
    ensures Consistent(AddSets(st, date, sets))
  {
    if sets != [] {
      var init := sets[..|sets| - 1];
      AddSetsConsistent(st, date, init);
      AddSetConsistent(AddSets(st, date, init), date, sets[|sets| - 1]);
    }
  }

  lemma OpenConsistent(st: Stats, date: Date)
    requires Consistent(st)
    ensures Consistent(Open(st, date))
  {
    if date !in st.daily {
      NoSetsOnDay(st.prs, date);
    }
  }

  lemma {:induction false} NoSetsOnDay(prs: seq<PrSet>, date: Date)
    requires forall i :: 0 <= i < |prs| ==> prs[i].date != date
    ensures DaySets(prs, date) == 0 && DayVolume(prs, date) == 0.0
  {
    if prs != [] {
      NoSetsOnDay(prs[..|prs| - 1], date);
    }
  }

  /** Every bucket a run produces is consistent. */
  lemma {:induction false} RunConsistent(e: Entry, ds: seq<Dated>)
    ensures Consistent(Run(Seed(e), ds))
  {
    if ds != [] {
      var init := ds[..|ds| - 1];
      var d := ds[|ds| - 1];
      RunConsistent(e, init);
      var st0 := Run(Seed(e), init);
      OpenConsistent(st0, d.date);
      AddSetsConsistent(Open(st0, d.date), d.date, d.entry.sets);
    }
  }

  /** After a run over a machine's entries the bucket holds the first entry's name and image,
      the entry count, every set as a PR candidate in log order and one day bucket per date. */
  lemma {:induction false} RunRecords(e: Entry, ds: seq<Dated>)
    ensures var st := Run(Seed(e), ds);
      && st.name == e.machineName && st.image == e.machineImage
      && st.workoutCount == |ds|
      && st.prs == AllPrs(ds)
      && st.daily.Keys == Dates(ds)
  {
    if ds != [] {
      var init := ds[..|ds| - 1];
      RunRecords(e, init);
      assert Dates(ds) == Dates(init) + {ds[|ds| - 1].date} by {
        assert forall i :: 0 <= i < |init| ==> ds[i] == init[i];
      }
    }
  }

  /** The last-trained date is the latest entry date, or the epoch when no entry is later. */
  lemma {:induction false} RunLastDate(e: Entry, ds: seq<Dated>)
    ensures var st := Run(Seed(e), ds);
      && st.lastDate >= Epoch
      && (forall i :: 0 <= i < |ds| ==> ds[i].date <= st.lastDate)
      && (st.lastDate == Epoch || exists i :: 0 <= i < |ds| && ds[i].date == st.lastDate)
  {
    if ds != [] {
      var init := ds[..|ds| - 1];
      var d := ds[|ds| - 1];
      RunLastDate(e, init);
      var st := Run(Seed(e), ds);
      assert forall i :: 0 <= i < |init| ==> ds[i] == init[i];
      if st.lastDate != Epoch && st.lastDate != d.date {
        var i :| 0 <= i < |init| && init[i].date == st.lastDate;
        assert ds[i].date == st.lastDate;
      }
    }
  }

  /** The statistics of a whole log, machine by machine. */
  lemma AggregateDescribes(ws: seq<Workout>, id: Id)
    ensures var ds := Only(Flatten(ws), id);
      && (id in Aggregate(ws) <==> ds != [])
      && (id in Aggregate(ws) ==>
            var st := Aggregate(ws)[id];
            && Consistent(st)
            && st.name == ds[0].entry.machineName && st.image == ds[0].entry.machineImage
            && st.workoutCount == |ds|
            && st.prs == AllPrs(ds)
            && st.daily.Keys == Dates(ds)
            && st.lastDate >= Epoch
            && (forall i :: 0 <= i < |ds| ==> ds[i].date <= st.lastDate)
            && (st.lastDate == Epoch || exists i :: 0 <= i < |ds| && ds[i].date == st.lastDate))
  {
    FoldBuckets(Flatten(ws), id);
    var ds := Only(Flatten(ws), id);
    if ds != [] {
      RunConsistent(ds[0].entry, ds);
      RunRecords(ds[0].entry, ds);
      RunLastDate(ds[0].entry, ds);
    }
  }

  /** The sum of the day buckets' volumes over a list of dates. */
  function DailyVolumes(daily: map<Date, Daily>, days: seq<Date>): real
    requires forall i :: 0 <= i < |days| ==> days[i] in daily
  {
    if days == [] then 0.0 else DailyVolumes(daily, days[..|days| - 1]) + daily[days[|days| - 1]].volume
  }

  /** The sum of the day buckets' set counts over a list of dates. */
  function DailySets(daily: map<Date, Daily>, days: seq<Date>): nat
    requires forall i :: 0 <= i < |days| ==> days[i] in daily
  {
    if days == [] then 0 else DailySets(daily, days[..|days| - 1]) + daily[days[|days| - 1]].sets
  }

  predicate NoRepeats(days: seq<Date>)
  {
    forall i, j :: 0 <= i < j < |days| ==> days[i] != days[j]
  }

  /** The volume of the sets of each listed day, summed over the list. */
  function DaysVolume(prs: seq<PrSet>, days: seq<Date>): real
  {
    if days == [] then 0.0 else DaysVolume(prs, days[..|days| - 1]) + DayVolume(prs, days[|days| - 1])
  }

  function DaysSets(prs: seq<PrSet>, days: seq<Date>): nat
  {
    if days == [] then 0 else DaysSets(prs, days[..|days| - 1]) + DaySets(prs, days[|days| - 1])
  }

  /** One more set adds its volume to the day it was done on, if that day is listed once. */
  lemma {:induction false} DaysSnoc(prs: seq<PrSet>, p: PrSet, days: seq<Date>)
    requires NoRepeats(days)
    ensures DaysVolume(prs + [p], days)
         == DaysVolume(prs, days) + (if p.date in days then SetVolume(p.weight, p.reps) else 0.0)
    ensures DaysSets(prs + [p], days) == DaysSets(prs, days) + (if p.date in days then 1 else 0)
  {
    if days != [] {
      var init, x := days[..|days| - 1], days[|days| - 1];
      assert NoRepeats(init);
      DaysSnoc(prs, p, init);
      assert (prs + [p])[..|prs|] == prs;
      assert p.date in days <==> p.date in init || p.date == x;
      assert p.date in init ==> p.date != x;
    }
  }

  /** Summed over a list holding each of their dates once, the per-day figures of a list of
      sets add up to its total volume and its number of sets. */
  lemma {:induction false} DaysTotal(prs: seq<PrSet>, days: seq<Date>)
    requires NoRepeats(days)
    requires forall i :: 0 <= i < |prs| ==> prs[i].date in days
    ensures DaysVolume(prs, days) == TotalVolume(prs)
    ensures DaysSets(prs, days) == |prs|
  {
    if prs == [] {
      EmptyDays(days);
    } else {
      var init, p := prs[..|prs| - 1], prs[|prs| - 1];
      DaysTotal(init, days);
      DaysSnoc(init, p, days);
      assert init + [p] == prs;
    }
  }

  lemma {:induction false} EmptyDays(days: seq<Date>)
    ensures DaysVolume([], days) == 0.0 && DaysSets([], days) == 0
  {
    if days != [] {
      EmptyDays(days[..|days| - 1]);
    }
  }

  lemma {:induction false} DailyMatchesDays(st: Stats, days: seq<Date>)
    requires Consistent(st)
    requires forall i :: 0 <= i < |days| ==> days[i] in st.daily
    ensures DailyVolumes(st.daily, days) == DaysVolume(st.prs, days)
    ensures DailySets(st.daily, days) == DaysSets(st.prs, days)
  {
    if days != [] {
      DailyMatchesDays(st, days[..|days| - 1]);
    }
  }

  /** In a consistent bucket the day buckets, each counted once, add up to the machine's total
      volume and to its number of sets. */
  lemma DailySums(st: Stats, days: seq<Date>)
    requires Consistent(st)
    requires NoRepeats(days)
    requires forall i :: 0 <= i < |days| ==> days[i] in st.daily
    requires forall d :: d in st.daily ==> d in days
    ensures DailyVolumes(st.daily, days) == st.totalVolume
    ensures DailySets(st.daily, days) == |st.prs|
  {
    DailyMatchesDays(st, days);
    DaysTotal(st.prs, days);
  }
}
