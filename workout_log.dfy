/** The workout log: the read and write paths of the stored records, and what logging, editing
    and deleting an exercise entry, or deleting a machine, do to the list of records. */
module WorkoutLog {
  import opened Domain
  import opened Strings
  import opened Registry

  /** One set row of the form after parsing: `None` stands for the `NaN` that `parseFloat` or
      `parseInt` yields on unreadable input. */
  datatype SetInput = SetInput(weight: Option<real>, reps: Option<int>)

  predicate RowAccepted(row: SetInput)
  {
    row.weight.Some? && row.weight.value >= 0.0 && row.reps.Some? && row.reps.value > 0
  }

  function RowSet(row: SetInput): SetRow
    requires RowAccepted(row)
  {
    SetRow(row.weight.value, row.reps.value)
  }

  /** The rows that pass the check, in form order, as sets. */
  function AcceptedSets(rows: seq<SetInput>): (r: seq<SetRow>)
    ensures |r| <= |rows|
    ensures forall i :: 0 <= i < |r| ==> GoodSet(r[i])
    ensures r == [] <==> forall i :: 0 <= i < |rows| ==> !RowAccepted(rows[i])
  {
    if rows == [] then []
    else
      var init := AcceptedSets(rows[..|rows| - 1]);
      var last := rows[|rows| - 1];
      if RowAccepted(last) then init + [RowSet(last)] else init
  }

  /** The check keeps a row exactly when it passes, with its own weight and reps. */
  lemma AcceptedSetsSingle(row: SetInput)
    ensures AcceptedSets([row]) == if RowAccepted(row) then [SetRow(row.weight.value, row.reps.value)] else []
  {
    assert [row][..0] == [];
  }

  /** Rows are checked one by one and the kept ones stay in form order. */
  lemma {:induction false} AcceptedSetsAppend(a: seq<SetInput>, b: seq<SetInput>)
    ensures AcceptedSets(a + b) == AcceptedSets(a) + AcceptedSets(b)
  {
    if b == [] {
      assert a + b == a;
    } else {
      var init := b[..|b| - 1];
      AcceptedSetsAppend(a, init);
      assert (a + b)[..|a + b| - 1] == a + init;
      assert (a + b)[|a + b| - 1] == b[|b| - 1];
    }
  }

  /** The `forEach` over the set fields: keep each row with weight >= 0 and reps > 0, and
      note whether any was kept. */
  method CollectSets(rows: seq<SetInput>) returns (sets: seq<SetRow>, hasValidSet: bool)
    ensures sets == AcceptedSets(rows)
    ensures hasValidSet <==> exists i :: 0 <= i < |rows| && RowAccepted(rows[i])
  {
    sets, hasValidSet := [], false;
    for i := 0 to |rows|
      invariant sets == AcceptedSets(rows[..i])
      invariant hasValidSet <==> sets != []
    {
      assert rows[..i + 1][..i] == rows[..i];
      var row := rows[i];
      if row.weight.Some? && row.weight.value >= 0.0 && row.reps.Some? && row.reps.value > 0 {
        sets := sets + [SetRow(row.weight.value, row.reps.value)];
        hasValidSet := true;
      }
    }
    assert rows[..|rows|] == rows;
  }

  const UnknownMachine: string := "Unknown Machine"

  /** The read path for one entry: the live machine's name and image when it still exists,
      otherwise the stored snapshot (a missing name reads as "Unknown Machine"). */
  function RefreshEntry(e: Entry, ms: seq<Machine>, isHttpUrl: UrlCheck): (r: Entry)
    ensures r.machineId == e.machineId && r.sets == e.sets && r.notes == e.notes
    ensures IdTaken(ms, e.machineId) ==>
              && r.machineName == ms[MachineIndex(ms, e.machineId)].name
              && r.machineImage == ms[MachineIndex(ms, e.machineId)].image
    ensures !IdTaken(ms, e.machineId) ==>
              && r.machineName == (if e.machineName != [] then e.machineName else UnknownMachine)
              && r.machineName != []
              && r.machineImage == NormalizeImage(e.machineImage, isHttpUrl)
  {
    match FindMachine(ms, e.machineId)
    case Some(m) => e.(machineName := m.name, machineImage := m.image)
    case None =>
      e.(machineName := if e.machineName != [] then e.machineName else UnknownMachine,
         machineImage := NormalizeImage(e.machineImage, isHttpUrl))
  }

  function RefreshEntries(es: seq<Entry>, ms: seq<Machine>, isHttpUrl: UrlCheck): (r: seq<Entry>)
    ensures |r| == |es|
    ensures forall i :: 0 <= i < |es| ==> r[i] == RefreshEntry(es[i], ms, isHttpUrl)
  {
    seq(|es|, i requires 0 <= i < |es| => RefreshEntry(es[i], ms, isHttpUrl))
  }

  /** `getWorkouts`: every entry refreshed against the machines as read. */
  function ReadWorkouts(stored: seq<Workout>, storedMachines: seq<Machine>, isHttpUrl: UrlCheck): (r: seq<Workout>)
    ensures |r| == |stored|
    ensures forall k :: 0 <= k < |r| ==>
              && r[k].date == stored[k].date
              && r[k].exercises == RefreshEntries(stored[k].exercises, NormalizeMachines(storedMachines, isHttpUrl), isHttpUrl)
  {
    var ms := NormalizeMachines(storedMachines, isHttpUrl);
    seq(|stored|, k requires 0 <= k < |stored| =>
      Workout(stored[k].date, RefreshEntries(stored[k].exercises, ms, isHttpUrl)))
  }

  function SaveEntry(e: Entry, isHttpUrl: UrlCheck): Entry
  {
    e.(machineImage := NormalizeImage(e.machineImage, isHttpUrl))
  }

  /** `saveWorkouts`: every entry's image normalised before it is written. */
  function SaveForm(ws: seq<Workout>, isHttpUrl: UrlCheck): (r: seq<Workout>)
    ensures |r| == |ws|
    ensures forall k :: 0 <= k < |r| ==> r[k].date == ws[k].date && |r[k].exercises| == |ws[k].exercises|
    ensures forall k, i :: 0 <= k < |r| && 0 <= i < |r[k].exercises| ==>
      r[k].exercises[i] == SaveEntry(ws[k].exercises[i], isHttpUrl)
  {
    seq(|ws|, k requires 0 <= k < |ws| =>
      Workout(ws[k].date, seq(|ws[k].exercises|, i requires 0 <= i < |ws[k].exercises| =>
        SaveEntry(ws[k].exercises[i], isHttpUrl))))
  }

  /** Two lists with the same dates and, entry by entry, the same machine ids. */
  predicate SameShape(a: seq<Workout>, b: seq<Workout>)
  {
    && |a| == |b|
    && (forall k :: 0 <= k < |a| ==> a[k].date == b[k].date && |a[k].exercises| == |b[k].exercises|)
    && (forall k, i :: 0 <= k < |a| && 0 <= i < |a[k].exercises| ==>
          a[k].exercises[i].machineId == b[k].exercises[i].machineId
          && a[k].exercises[i].sets == b[k].exercises[i].sets)
  }

  /** Invariants about dates, machine ids and sets survive the read and the write paths. */
  lemma ShapeKeepsInvariants(a: seq<Workout>, b: seq<Workout>)
    requires SameShape(a, b)
    ensures OneEntryPerMachine(a) <==> OneEntryPerMachine(b)
    ensures UniqueDates(a) <==> UniqueDates(b)
    ensures NoEmptyDays(a) <==> NoEmptyDays(b)
    ensures AllSetsGood(a) <==> AllSetsGood(b)
  {
    assert forall k :: 0 <= k < |a| ==> (a[k].exercises == [] <==> b[k].exercises == []);
  }

  lemma ReadAndSaveKeepShape(stored: seq<Workout>, storedMachines: seq<Machine>, isHttpUrl: UrlCheck)
    ensures SameShape(ReadWorkouts(stored, storedMachines, isHttpUrl), stored)
    ensures SameShape(SaveForm(stored, isHttpUrl), stored)
  {
  }

  /** Every record holds at least one entry. */
  predicate NoEmptyDays(ws: seq<Workout>)
  {
    forall k :: 0 <= k < |ws| ==> ws[k].exercises != []
  }

  /** Every stored set has weight >= 0 and reps > 0. */
  predicate AllSetsGood(ws: seq<Workout>)
  {
    forall k, i, s :: 0 <= k < |ws| && 0 <= i < |ws[k].exercises| && 0 <= s < |ws[k].exercises[i].sets| ==>
      GoodSet(ws[k].exercises[i].sets[s])
  }

  /** Writing what was read stores exactly what was read: the images the read path puts in
      are already normal. */
  lemma {:induction false} SaveOfReadIsRead(stored: seq<Workout>, storedMachines: seq<Machine>, isHttpUrl: UrlCheck)
    ensures SaveForm(ReadWorkouts(stored, storedMachines, isHttpUrl), isHttpUrl)
         == ReadWorkouts(stored, storedMachines, isHttpUrl)
  {
    var ms := NormalizeMachines(storedMachines, isHttpUrl);
    NormalizeMachinesIdempotent(storedMachines, isHttpUrl);
    var r := ReadWorkouts(stored, storedMachines, isHttpUrl);
    var w := SaveForm(r, isHttpUrl);
    forall k, i | 0 <= k < |r| && 0 <= i < |r[k].exercises|
      ensures w[k].exercises[i] == r[k].exercises[i]
    {
      var e := stored[k].exercises[i];
      match FindMachine(ms, e.machineId)
      case Some(m) =>
        assert m == ms[MachineIndex(ms, e.machineId)];
      case None =>
        NormalizeImageIdempotent(e.machineImage, isHttpUrl);
    }
    assert forall k :: 0 <= k < |r| ==> w[k].exercises == r[k].exercises;
  }

  /** Refreshing is idempotent: reading what was read changes nothing. */
  lemma {:induction false} ReadIdempotent(stored: seq<Workout>, storedMachines: seq<Machine>, isHttpUrl: UrlCheck)
    ensures ReadWorkouts(ReadWorkouts(stored, storedMachines, isHttpUrl), storedMachines, isHttpUrl)
         == ReadWorkouts(stored, storedMachines, isHttpUrl)
  {
    var ms := NormalizeMachines(storedMachines, isHttpUrl);
    var r := ReadWorkouts(stored, storedMachines, isHttpUrl);
    var r2 := ReadWorkouts(r, storedMachines, isHttpUrl);
    forall k, i | 0 <= k < |r| && 0 <= i < |r[k].exercises|
      ensures r2[k].exercises[i] == r[k].exercises[i]
    {
      var e := stored[k].exercises[i];
      if FindMachine(ms, e.machineId).None? {
        NormalizeImageIdempotent(e.machineImage, isHttpUrl);
      }
    }
    assert forall k :: 0 <= k < |r| ==> r2[k].exercises == r[k].exercises;
  }

  /** `workouts.findIndex(w => w.date === date)` */
  function DayIndex(ws: seq<Workout>, date: Date): (k: int)
    ensures -1 <= k < |ws|
    ensures k >= 0 ==> ws[k].date == date
    ensures forall j :: 0 <= j < |ws| && (k < 0 || j < k) ==> ws[j].date != date
  {
    if ws == [] then -1
    else if DayIndex(ws[..|ws| - 1], date) >= 0 then DayIndex(ws[..|ws| - 1], date)
    else if ws[|ws| - 1].date == date then |ws| - 1
    else -1
  }

  /** `exercises.findIndex(e => e.machineId === id)` */
  function EntryIndex(es: seq<Entry>, id: Id): (j: int)
    ensures -1 <= j < |es|
    ensures j >= 0 ==> es[j].machineId == id
    ensures forall i :: 0 <= i < |es| && (j < 0 || i < j) ==> es[i].machineId != id
  {
    if es == [] then -1
    else if EntryIndex(es[..|es| - 1], id) >= 0 then EntryIndex(es[..|es| - 1], id)
    else if es[|es| - 1].machineId == id then |es| - 1
    else -1
  }

  /** The entry a log or edit builds, with the selected machine's name and image when it
      exists (the machines as read). */
  function NewEntry(machineId: Id, sets: seq<SetRow>, notes: string, ms: seq<Machine>): Entry
  {
    match FindMachine(ms, machineId)
    case Some(m) => Entry(machineId, m.name, m.image, sets, notes)
    case None => Entry(machineId, UnknownMachine, None, sets, notes)
  }

  /** What the owner picks when the day already has an entry for the machine. */
  datatype Choice = Replace | Merge | Cancel

  /** "Add These Sets": the new sets go after the existing ones; non-empty new notes win. */
  function MergeEntry(existing: Entry, added: Entry): (r: Entry)
    ensures r.machineId == existing.machineId && r.machineName == existing.machineName
    ensures r.machineImage == existing.machineImage
    ensures |r.sets| == |existing.sets| + |added.sets|
    ensures r.sets[..|existing.sets|] == existing.sets && r.sets[|existing.sets|..] == added.sets
    ensures r.notes == if added.notes != [] then added.notes else existing.notes
  {
    existing.(sets := existing.sets + added.sets,
              notes := if added.notes != [] then added.notes else existing.notes)
  }

  /** The day's record exists, or an empty one is added at the end. */
  function WithDay(ws: seq<Workout>, date: Date): (r: seq<Workout>)
    ensures DayIndex(ws, date) >= 0 ==> r == ws
    ensures DayIndex(ws, date) < 0 ==> r == ws + [Workout(date, [])]
  {
    if DayIndex(ws, date) >= 0 then ws else ws + [Workout(date, [])]
  }

  /** The day's position in `WithDay(ws, date)`. */
  function DaySlot(ws: seq<Workout>, date: Date): (k: nat)
    ensures k < |WithDay(ws, date)| && WithDay(ws, date)[k].date == date
  {
    if DayIndex(ws, date) >= 0 then DayIndex(ws, date) else |ws|
  }

  predicate HasEntryFor(ws: seq<Workout>, date: Date, id: Id)
  {
    DayIndex(ws, date) >= 0 && EntryIndex(ws[DayIndex(ws, date)].exercises, id) >= 0
  }

  /** The records after logging `e` on `date` once the owner has answered, or `None` when the
      owner cancelled and nothing is saved. */
  function LogResult(ws: seq<Workout>, date: Date, e: Entry, choice: Choice): Option<seq<Workout>>
  {
    var ws1 := WithDay(ws, date);
    var k := DaySlot(ws, date);
    var day := ws1[k];
    var j := EntryIndex(day.exercises, e.machineId);
    if j < 0 then Some(ws1[k := day.(exercises := day.exercises + [e])])
    else
      match choice
      case Replace => Some(ws1[k := day.(exercises := day.exercises[j := e])])
      case Merge => Some(ws1[k := day.(exercises := day.exercises[j := MergeEntry(day.exercises[j], e)])])
      case Cancel => None
  }

  /** A first entry for the machine that day is appended to the day's record, which is
      created at the end of the list when the date has none. */
  lemma LogAppendsWhenNoConflict(ws: seq<Workout>, date: Date, e: Entry, choice: Choice)
    requires !HasEntryFor(ws, date, e.machineId)
    ensures DayIndex(ws, date) < 0 ==> LogResult(ws, date, e, choice) == Some(ws + [Workout(date, [e])])
    ensures DayIndex(ws, date) >= 0 ==>
      var k := DayIndex(ws, date);
      LogResult(ws, date, e, choice) == Some(ws[k := ws[k].(exercises := ws[k].exercises + [e])])
  {
    var k := DayIndex(ws, date);
    if k < 0 {
      var day := Workout(date, []);
      assert WithDay(ws, date) == ws + [day] && DaySlot(ws, date) == |ws|;
      assert EntryIndex(day.exercises, e.machineId) == -1;
      assert day.exercises + [e] == [e];
      assert (ws + [day])[|ws| := Workout(date, [e])] == ws + [Workout(date, [e])];
    } else {
      assert WithDay(ws, date) == ws && DaySlot(ws, date) == k;
      assert EntryIndex(ws[k].exercises, e.machineId) < 0;
    }
  }

  /** A second entry for the same machine on the same day is never appended silently: the
      owner's choice decides, Replace puts the new entry in the old one's place, Merge keeps
      the old sets followed by the new ones, and Cancel saves nothing. */
  lemma LogResolvesConflict(ws: seq<Workout>, date: Date, e: Entry, choice: Choice)
    requires HasEntryFor(ws, date, e.machineId)
    ensures var k := DayIndex(ws, date);
            var j := EntryIndex(ws[k].exercises, e.machineId);
            var prior := ws[k].exercises[j];
            LogResult(ws, date, e, choice) == match choice
              case Replace => Some(ws[k := ws[k].(exercises := ws[k].exercises[j := e])])
              case Merge => Some(ws[k := ws[k].(exercises := ws[k].exercises[j := MergeEntry(prior, e)])])
              case Cancel => None
  {
  }

  /** Logging keeps at most one entry per machine per day. */
  lemma LogKeepsOneEntryPerMachine(ws: seq<Workout>, date: Date, e: Entry, choice: Choice)
    requires OneEntryPerMachine(ws)
    requires LogResult(ws, date, e, choice).Some?
    ensures OneEntryPerMachine(LogResult(ws, date, e, choice).value)
  {
    var ws1 := WithDay(ws, date);
    var k := DaySlot(ws, date);
    var r := LogResult(ws, date, e, choice).value;
    assert OneEntryPerMachine(ws1) by {
      if DayIndex(ws, date) < 0 {
        assert forall m :: 0 <= m < |ws| ==> ws1[m] == ws[m];
      }
    }
    var es := ws1[k].exercises;
    var j := EntryIndex(es, e.machineId);
    forall m, a, b | 0 <= m < |r| && 0 <= a < b < |r[m].exercises|
      ensures r[m].exercises[a].machineId != r[m].exercises[b].machineId
    {
      if m != k {
        assert r[m] == ws1[m];
      } else if j < 0 {
        assert r[m].exercises == es + [e];
      } else {
        assert forall i :: 0 <= i < |es| ==> r[m].exercises[i].machineId == es[i].machineId;
      }
    }
  }

  /** Logging keeps at most one record per date and never leaves a record empty. */
  lemma LogKeepsDaysWellFormed(ws: seq<Workout>, date: Date, e: Entry, choice: Choice)
    requires UniqueDates(ws) && NoEmptyDays(ws)
    requires LogResult(ws, date, e, choice).Some?
    ensures UniqueDates(LogResult(ws, date, e, choice).value)
    ensures NoEmptyDays(LogResult(ws, date, e, choice).value)
  {
    var ws1 := WithDay(ws, date);
    var k := DaySlot(ws, date);
    var r := LogResult(ws, date, e, choice).value;
    assert |r| == |ws1| && forall m :: 0 <= m < |r| ==> r[m].date == ws1[m].date;
    assert forall m :: 0 <= m < |ws| ==> ws1[m] == ws[m];
    assert forall m :: 0 <= m < |r| && m != k ==> r[m] == ws1[m];
  }

  /** Logging stores only good sets when it is given only good sets. */
  lemma LogKeepsSetsGood(ws: seq<Workout>, date: Date, e: Entry, choice: Choice)
    requires AllSetsGood(ws)
    requires forall s :: 0 <= s < |e.sets| ==> GoodSet(e.sets[s])
    requires LogResult(ws, date, e, choice).Some?
    ensures AllSetsGood(LogResult(ws, date, e, choice).value)
  {
    var ws1 := WithDay(ws, date);
    var k := DaySlot(ws, date);
    var r := LogResult(ws, date, e, choice).value;
    assert forall m :: 0 <= m < |ws| ==> ws1[m] == ws[m];
    var es := ws1[k].exercises;
    var j := EntryIndex(es, e.machineId);
    forall m, i, s | 0 <= m < |r| && 0 <= i < |r[m].exercises| && 0 <= s < |r[m].exercises[i].sets|
      ensures GoodSet(r[m].exercises[i].sets[s])
    {
      if m == k && j >= 0 && choice == Merge && i == j {
        var merged := MergeEntry(es[j], e);
        if s >= |es[j].sets| {
          assert merged.sets[s] == e.sets[s - |es[j].sets|];
        }
      }
    }
  }

  /** `saveEditedExercise`: the entry at `index` of the day's record replaced wholesale, or
      `None` when the date or index does not exist. */
  function EditResult(ws: seq<Workout>, date: Date, index: int, e: Entry): Option<seq<Workout>>
  {
    var k := DayIndex(ws, date);
    if k < 0 || !(0 <= index < |ws[k].exercises|) then None
    else Some(ws[k := ws[k].(exercises := ws[k].exercises[index := e])])
  }

  /** An edit touches one entry: all other entries and every date stay where they were. */
  lemma EditReplacesOneEntry(ws: seq<Workout>, date: Date, index: int, e: Entry)
    ensures EditResult(ws, date, index, e).None? <==>
      DayIndex(ws, date) < 0 || !(0 <= index < |ws[DayIndex(ws, date)].exercises|)
    ensures EditResult(ws, date, index, e).Some? ==>
      var r := EditResult(ws, date, index, e).value;
      var k := DayIndex(ws, date);
      && SameDates(r, ws)
      && r[k].exercises[index] == e
      && (forall m :: 0 <= m < |ws| && m != k ==> r[m] == ws[m])
      && (forall i :: 0 <= i < |ws[k].exercises| && i != index ==> r[k].exercises[i] == ws[k].exercises[i])
  {
  }

  predicate SameDates(a: seq<Workout>, b: seq<Workout>)
  {
    |a| == |b| && forall k :: 0 <= k < |a| ==> a[k].date == b[k].date && |a[k].exercises| == |b[k].exercises|
  }

  /** An edit that keeps the entry's machine keeps one entry per machine per day. */
  lemma EditSameMachineKeepsOneEntryPerMachine(ws: seq<Workout>, date: Date, index: int, e: Entry)
    requires OneEntryPerMachine(ws)
    requires EditResult(ws, date, index, e).Some?
    requires e.machineId == ws[DayIndex(ws, date)].exercises[index].machineId
    ensures OneEntryPerMachine(EditResult(ws, date, index, e).value)
  {
    var r := EditResult(ws, date, index, e).value;
    var k := DayIndex(ws, date);
    assert forall m :: 0 <= m < |ws| && m != k ==> r[m] == ws[m];
    assert forall i :: 0 <= i < |ws[k].exercises| ==> r[k].exercises[i].machineId == ws[k].exercises[i].machineId;
  }

  /** An edit with valid sets keeps dates unique, days non-empty and every set valid. */
  lemma EditKeepsDaysWellFormed(ws: seq<Workout>, date: Date, index: int, e: Entry)
    requires UniqueDates(ws) && NoEmptyDays(ws) && AllSetsGood(ws)
    requires forall s :: 0 <= s < |e.sets| ==> GoodSet(e.sets[s])
    requires EditResult(ws, date, index, e).Some?
    ensures UniqueDates(EditResult(ws, date, index, e).value)
    ensures NoEmptyDays(EditResult(ws, date, index, e).value)
    ensures AllSetsGood(EditResult(ws, date, index, e).value)
  {
    var r := EditResult(ws, date, index, e).value;
    var k := DayIndex(ws, date);
    EditReplacesOneEntry(ws, date, index, e);
    forall m, i, s | 0 <= m < |r| && 0 <= i < |r[m].exercises| && 0 <= s < |r[m].exercises[i].sets|
      ensures GoodSet(r[m].exercises[i].sets[s])
    {
      if m != k {
        assert r[m] == ws[m];
      } else if i != index {
        assert r[m].exercises[i] == ws[m].exercises[i];
      } else {
        assert r[m].exercises[i] == e;
      }
    }
  }

  /** The edit path does not look for another entry of the new machine that day: editing the
      second of two entries to the first one's machine leaves two entries for one machine. */
  lemma EditCanDuplicateMachine()
    ensures var a := Entry("bench", "Bench", None, [SetRow(40.0, 8)], "");
            var b := Entry("row", "Row", None, [SetRow(30.0, 10)], "");
            var ws := [Workout(20000, [a, b])];
            && OneEntryPerMachine(ws)
            && EditResult(ws, 20000, 1, a).Some?
            && !OneEntryPerMachine(EditResult(ws, 20000, 1, a).value)
  {
    var a := Entry("bench", "Bench", None, [SetRow(40.0, 8)], "");
    var b := Entry("row", "Row", None, [SetRow(30.0, 10)], "");
    var ws := [Workout(20000, [a, b])];
    assert DayIndex(ws, 20000) == 0;
    assert a.machineId[0] != b.machineId[0];
    var r := EditResult(ws, 20000, 1, a).value;
    assert r[0].exercises == [a, a];
    assert r[0].exercises[0].machineId == r[0].exercises[1].machineId;
  }

  /** `splice(index, 1)`'s start position: a negative index counts from the end. */
  function SpliceStart(index: int, len: nat): (s: nat)
    ensures s <= len
  {
    if index < 0 then (if len + index < 0 then 0 else len + index) else if index > len then len else index
  }

  /** `array.splice(index, 1)`: the element at the start position removed, if there is one. */
  function SpliceOne<T>(s: seq<T>, index: int): (r: seq<T>)
    ensures 0 <= index < |s| ==> |r| == |s| - 1 && r == s[..index] + s[index + 1..]
    ensures index >= |s| ==> r == s
    ensures -|s| <= index < 0 ==> r == s[..|s| + index] + s[|s| + index + 1..]
    ensures index < -|s| && s != [] ==> r == s[1..]
  {
    var start := SpliceStart(index, |s|);
    if start < |s| then s[..start] + s[start + 1..] else s
  }

  /** `deleteExercise`: the entry at `index` spliced out of the day's record, and the record
      spliced out of the list when it is left empty; `None` (nothing saved) for an unknown date. */
  function DeleteResult(ws: seq<Workout>, date: Date, index: int): Option<seq<Workout>>
  {
    var k := DayIndex(ws, date);
    if k < 0 then None
    else
      var es := SpliceOne(ws[k].exercises, index);
      if es == [] then Some(ws[..k] + ws[k + 1..])
      else Some(ws[k := ws[k].(exercises := es)])
  }

  /** Deleting entry `index` of an existing date removes exactly that entry, keeps the others
      in order, and drops the record exactly when it becomes empty. */
  lemma DeleteRemovesOneEntry(ws: seq<Workout>, date: Date, index: int)
    requires DayIndex(ws, date) >= 0 && 0 <= index < |ws[DayIndex(ws, date)].exercises|
    ensures var k := DayIndex(ws, date);
            var es := ws[k].exercises;
            var rest := es[..index] + es[index + 1..];
            DeleteResult(ws, date, index) ==
              if |es| == 1 then Some(ws[..k] + ws[k + 1..])
              else Some(ws[k := Workout(date, rest)])
  {
  }

  lemma DeleteUnknownDateSavesNothing(ws: seq<Workout>, date: Date, index: int)
    requires forall k :: 0 <= k < |ws| ==> ws[k].date != date
    ensures DeleteResult(ws, date, index).None?
  {
  }

  /** Removing one element keeps the order of the others: what held for every pair still holds. */
  lemma SpliceKeepsPairs<T>(s: seq<T>, index: int, P: (T, T) -> bool)
    requires forall a, b :: 0 <= a < b < |s| ==> P(s[a], s[b])
    ensures var r := SpliceOne(s, index); forall a, b :: 0 <= a < b < |r| ==> P(r[a], r[b])
  {
    var start := SpliceStart(index, |s|);
    if start < |s| {
      var r := s[..start] + s[start + 1..];
      forall a, b | 0 <= a < b < |r|
        ensures P(r[a], r[b])
      {
        var a' := if a < start then a else a + 1;
        var b' := if b < start then b else b + 1;
        assert r[a] == s[a'] && r[b] == s[b'];
      }
    }
  }

  lemma SpliceKeepsElements<T>(s: seq<T>, index: int)
    ensures forall x :: x in SpliceOne(s, index) ==> x in s
  {
  }

  /** Deleting an entry keeps the log's invariants. */
  lemma DeleteKeepsInvariants(ws: seq<Workout>, date: Date, index: int)
    requires DeleteResult(ws, date, index).Some?
    requires OneEntryPerMachine(ws) && UniqueDates(ws) && NoEmptyDays(ws) && AllSetsGood(ws)
    ensures var r := DeleteResult(ws, date, index).value;
            OneEntryPerMachine(r) && UniqueDates(r) && NoEmptyDays(r) && AllSetsGood(r)
  {
    var k := DayIndex(ws, date);
    var es := SpliceOne(ws[k].exercises, index);
    DeleteSpliceFacts(ws, date, index);
    if es == [] {
      assert DeleteResult(ws, date, index).value == ws[..k] + ws[k + 1..];
      DropDayKeepsInvariants(ws, k);
    } else {
      assert DeleteResult(ws, date, index).value == ws[k := ws[k].(exercises := es)];
      ShrinkDayKeepsInvariants(ws, k, es);
    }
  }

  lemma DropDayKeepsInvariants(ws: seq<Workout>, k: nat)
    requires k < |ws|
    requires OneEntryPerMachine(ws) && UniqueDates(ws) && NoEmptyDays(ws) && AllSetsGood(ws)
    ensures var r := ws[..k] + ws[k + 1..];
            OneEntryPerMachine(r) && UniqueDates(r) && NoEmptyDays(r) && AllSetsGood(r)
  {
    var r := ws[..k] + ws[k + 1..];
    assert forall m :: 0 <= m < |r| ==> r[m] == ws[if m < k then m else m + 1];
    assert UniqueDates(r) by {
      forall a, b | 0 <= a < b < |r|
        ensures r[a].date != r[b].date
      {
        assert r[a] == ws[if a < k then a else a + 1] && r[b] == ws[if b < k then b else b + 1];
      }
    }
  }

  lemma ShrinkDayKeepsInvariants(ws: seq<Workout>, k: nat, es: seq<Entry>)
    requires k < |ws| && es != []
    requires forall a, b :: 0 <= a < b < |es| ==> es[a].machineId != es[b].machineId
    requires forall x :: x in es ==> x in ws[k].exercises
    requires OneEntryPerMachine(ws) && UniqueDates(ws) && NoEmptyDays(ws) && AllSetsGood(ws)
    ensures var r := ws[k := ws[k].(exercises := es)];
            OneEntryPerMachine(r) && UniqueDates(r) && NoEmptyDays(r) && AllSetsGood(r)
  {
    var r := ws[k := ws[k].(exercises := es)];
    assert forall m :: 0 <= m < |r| && m != k ==> r[m] == ws[m];
    assert AllSetsGood(r) by {
      forall m, i, s | 0 <= m < |r| && 0 <= i < |r[m].exercises| && 0 <= s < |r[m].exercises[i].sets|
        ensures GoodSet(r[m].exercises[i].sets[s])
      {
        if m == k {
          assert es[i] in ws[k].exercises;
        }
      }
    }
  }

  /** The splice of a deletion keeps the day's entries distinct and takes nothing new. */
  lemma DeleteSpliceFacts(ws: seq<Workout>, date: Date, index: int)
    requires DeleteResult(ws, date, index).Some?
    requires OneEntryPerMachine(ws)
    ensures var es := SpliceOne(ws[DayIndex(ws, date)].exercises, index);
      && (forall a, b :: 0 <= a < b < |es| ==> es[a].machineId != es[b].machineId)
      && (forall x :: x in es ==> x in ws[DayIndex(ws, date)].exercises)
  {
    var k := DayIndex(ws, date);
    SpliceKeepsPairs(ws[k].exercises, index, (x: Entry, y: Entry) => x.machineId != y.machineId);
    SpliceKeepsElements(ws[k].exercises, index);
  }

  /** `exercises.filter(ex => ex.machineId !== machineId)` */
  function WithoutMachine(es: seq<Entry>, id: Id): (r: seq<Entry>)
    ensures forall e :: e in r <==> e in es && e.machineId != id
    ensures |r| <= |es|
  {
    if es == [] then []
    else
      var init := WithoutMachine(es[..|es| - 1], id);
      if es[|es| - 1].machineId != id then init + [es[|es| - 1]] else init
  }

  lemma WithoutMachineSingle(e: Entry, id: Id)
    ensures WithoutMachine([e], id) == if e.machineId != id then [e] else []
  {
    assert [e][..0] == [];
  }

  /** The filter keeps the other machines' entries in order, each as often as it occurs. */
  lemma {:induction false} WithoutMachineAppend(a: seq<Entry>, b: seq<Entry>, id: Id)
    ensures WithoutMachine(a + b, id) == WithoutMachine(a, id) + WithoutMachine(b, id)
  {
    if b == [] {
      assert a + b == a;
    } else {
      var init := b[..|b| - 1];
      WithoutMachineAppend(a, init, id);
      assert (a + b)[..|a + b| - 1] == a + init;
      assert (a + b)[|a + b| - 1] == b[|b| - 1];
    }
  }

  /** `deleteMachine`'s cascade: each record's entries for the machine removed, then every
      record without entries dropped. */
  function Pruned(ws: seq<Workout>, id: Id): (r: seq<Workout>)
    ensures |r| <= |ws|
  {
    if ws == [] then []
    else
      var init := Pruned(ws[..|ws| - 1], id);
      var last := ws[|ws| - 1];
      var es := WithoutMachine(last.exercises, id);
      if es != [] then init + [Workout(last.date, es)] else init
  }

  lemma PrunedSingle(w: Workout, id: Id)
    ensures Pruned([w], id)
         == if WithoutMachine(w.exercises, id) != [] then [Workout(w.date, WithoutMachine(w.exercises, id))] else []
  {
    assert [w][..0] == [];
  }

  /** The cascade treats each record on its own and keeps the surviving records in order. */
  lemma {:induction false} PrunedAppend(a: seq<Workout>, b: seq<Workout>, id: Id)
    ensures Pruned(a + b, id) == Pruned(a, id) + Pruned(b, id)
  {
    if b == [] {
      assert a + b == a;
    } else {
      var init := b[..|b| - 1];
      PrunedAppend(a, init, id);
      assert (a + b)[..|a + b| - 1] == a + init;
      assert (a + b)[|a + b| - 1] == b[|b| - 1];
    }
  }

  /** The cascade as the program runs it: a `map` that reassigns each record's entries and a
      `filter` that keeps the non-empty records. */
  method PruneMachine(ws: seq<Workout>, id: Id) returns (kept: seq<Workout>)
    ensures kept == Pruned(ws, id)
  {
    kept := [];
    for i := 0 to |ws|
      invariant kept == Pruned(ws[..i], id)
    {
      assert ws[..i + 1][..i] == ws[..i];
      var exercises := WithoutMachine(ws[i].exercises, id);
      if |exercises| > 0 {
        kept := kept + [Workout(ws[i].date, exercises)];
      }
    }
    assert ws[..|ws|] == ws;
  }

  /** The last step of the cascade's fold. */
  lemma PrunedStep(ws: seq<Workout>, id: Id)
    requires ws != []
    ensures var last := ws[|ws| - 1];
            var es := WithoutMachine(last.exercises, id);
            Pruned(ws, id) == Pruned(ws[..|ws| - 1], id) + (if es != [] then [Workout(last.date, es)] else [])
  {
  }

  /** After the cascade no entry names the machine and no record is empty, even one that was
      empty before. */
  lemma {:induction false} PrunedHasNoMachine(ws: seq<Workout>, id: Id)
    ensures var r := Pruned(ws, id);
      && NoEmptyDays(r)
      && (forall k, i :: 0 <= k < |r| && 0 <= i < |r[k].exercises| ==> r[k].exercises[i].machineId != id)
  {
    if ws != [] {
      PrunedHasNoMachine(ws[..|ws| - 1], id);
      PrunedStep(ws, id);
      var r0 := Pruned(ws[..|ws| - 1], id);
      var r := Pruned(ws, id);
      assert forall k :: 0 <= k < |r0| ==> r[k] == r0[k];
      forall k, i | |r0| <= k < |r| && 0 <= i < |r[k].exercises|
        ensures r[k].exercises[i].machineId != id
      {
        assert r[k].exercises[i] in r[k].exercises;
      }
    }
  }

  /** Every entry the cascade keeps was in a record of the same date. */
  lemma {:induction false} PrunedOnlyKeeps(ws: seq<Workout>, id: Id)
    ensures var r := Pruned(ws, id);
      forall k, e :: 0 <= k < |r| && e in r[k].exercises ==>
        exists m :: 0 <= m < |ws| && ws[m].date == r[k].date && e in ws[m].exercises
  {
    if ws != [] {
      var init := ws[..|ws| - 1];
      PrunedOnlyKeeps(init, id);
      PrunedStep(ws, id);
      var r0 := Pruned(init, id);
      var r := Pruned(ws, id);
      forall k, e | 0 <= k < |r| && e in r[k].exercises
        ensures exists m :: 0 <= m < |ws| && ws[m].date == r[k].date && e in ws[m].exercises
      {
        if k < |r0| {
          assert r[k] == r0[k];
          var m :| 0 <= m < |init| && init[m].date == r0[k].date && e in init[m].exercises;
          assert ws[m] == init[m];
        } else {
          assert ws[|ws| - 1].date == r[k].date && e in ws[|ws| - 1].exercises;
        }
      }
    }
  }

  /** Every entry for another machine survives the cascade under its date. */
  lemma {:induction false} PrunedKeepsOthers(ws: seq<Workout>, id: Id)
    ensures var r := Pruned(ws, id);
      forall m, e :: 0 <= m < |ws| && e in ws[m].exercises && e.machineId != id ==>
        exists k :: 0 <= k < |r| && r[k].date == ws[m].date && e in r[k].exercises
  {
    if ws != [] {
      var init := ws[..|ws| - 1];
      PrunedKeepsOthers(init, id);
      PrunedStep(ws, id);
      var r0 := Pruned(init, id);
      var r := Pruned(ws, id);
      var last := ws[|ws| - 1];
      var es := WithoutMachine(last.exercises, id);
      forall m, e | 0 <= m < |ws| && e in ws[m].exercises && e.machineId != id
        ensures exists k :: 0 <= k < |r| && r[k].date == ws[m].date && e in r[k].exercises
      {
        if m < |init| {
          assert init[m] == ws[m];
          var k :| 0 <= k < |r0| && r0[k].date == init[m].date && e in r0[k].exercises;
          assert r[k] == r0[k];
        } else {
          assert e in es;
          assert r[|r0|] == Workout(last.date, es);
        }
      }
    }
  }

  predicate DistinctMachines(es: seq<Entry>)
  {
    forall a, b :: 0 <= a < b < |es| ==> es[a].machineId != es[b].machineId
  }

  /** Filtering keeps the entries' machine ids distinct. */
  lemma {:induction false} WithoutMachineKeepsDistinct(es: seq<Entry>, id: Id)
    requires DistinctMachines(es)
    ensures DistinctMachines(WithoutMachine(es, id))
  {
    if es != [] {
      var init := es[..|es| - 1];
      var last := es[|es| - 1];
      WithoutMachineKeepsDistinct(init, id);
      var r0 := WithoutMachine(init, id);
      var r := WithoutMachine(es, id);
      if last.machineId != id {
        assert r == r0 + [last];
        forall a, b | 0 <= a < b < |r|
          ensures r[a].machineId != r[b].machineId
        {
          if b == |r0| {
            assert r[a] in r0;
            var p :| 0 <= p < |init| && init[p] == r[a];
            assert es[p] == init[p];
          } else {
            assert r[a] == r0[a] && r[b] == r0[b];
          }
        }
      } else {
        assert r == r0;
      }
      assert DistinctMachines(r);
    }
  }

  /** The cascade keeps one record per date, one entry per machine per day and good sets. */
  lemma {:induction false} PrunedKeepsInvariants(ws: seq<Workout>, id: Id)
    requires OneEntryPerMachine(ws) && UniqueDates(ws) && AllSetsGood(ws)
    ensures var r := Pruned(ws, id);
      && OneEntryPerMachine(r) && UniqueDates(r) && AllSetsGood(r)
      && (forall k :: 0 <= k < |r| ==> exists m :: 0 <= m < |ws| && ws[m].date == r[k].date)
  {
    if ws != [] {
      var init := ws[..|ws| - 1];
      var last := ws[|ws| - 1];
      assert forall k :: 0 <= k < |init| ==> init[k] == ws[k];
      PrunedKeepsInvariants(init, id);
      PrunedStep(ws, id);
      var r0 := Pruned(init, id);
      var r := Pruned(ws, id);
      var es := WithoutMachine(last.exercises, id);
      if es != [] {
        assert forall k :: 0 <= k < |r0| ==> r[k] == r0[k];
        assert r[|r0|] == Workout(last.date, es);
        WithoutMachineKeepsDistinct(last.exercises, id);
        assert UniqueDates(r) by {
          forall a, b | 0 <= a < b < |r|
            ensures r[a].date != r[b].date
          {
            if b == |r0| {
              var m :| 0 <= m < |init| && init[m].date == r0[a].date;
              assert ws[m].date != ws[|ws| - 1].date;
            }
          }
        }
        assert AllSetsGood(r) by {
          forall k, i, s | 0 <= k < |r| && 0 <= i < |r[k].exercises| && 0 <= s < |r[k].exercises[i].sets|
            ensures GoodSet(r[k].exercises[i].sets[s])
          {
            if k == |r0| {
              assert es[i] in last.exercises;
            }
          }
        }
        assert forall k :: 0 <= k < |r| ==> exists m :: 0 <= m < |ws| && ws[m].date == r[k].date by {
          forall k | 0 <= k < |r|
            ensures exists m :: 0 <= m < |ws| && ws[m].date == r[k].date
          {
            if k < |r0| {
              var m :| 0 <= m < |init| && init[m].date == r0[k].date;
              assert ws[m].date == r[k].date;
            } else {
              assert ws[|ws| - 1].date == r[k].date;
            }
          }
        }
      } else {
        assert r == r0;
        forall k | 0 <= k < |r|
          ensures exists m :: 0 <= m < |ws| && ws[m].date == r[k].date
        {
          var m :| 0 <= m < |init| && init[m].date == r0[k].date;
          assert ws[m].date == r[k].date;
        }
      }
    }
  }

  /** Deleting a machine nobody logged, from a log without empty records, changes nothing. */
  lemma {:induction false} PruneUnusedMachine(ws: seq<Workout>, id: Id)
    requires NoEmptyDays(ws)
    requires forall k, i :: 0 <= k < |ws| && 0 <= i < |ws[k].exercises| ==> ws[k].exercises[i].machineId != id
    ensures Pruned(ws, id) == ws
  {
    if ws != [] {
      var init := ws[..|ws| - 1];
      var last := ws[|ws| - 1];
      assert forall k :: 0 <= k < |init| ==> init[k] == ws[k];
      PruneUnusedMachine(init, id);
      PrunedStep(ws, id);
      WithoutUnusedMachine(last.exercises, id);
      assert ws == init + [last];
    }
  }

  lemma {:induction false} WithoutUnusedMachine(es: seq<Entry>, id: Id)
    requires forall i :: 0 <= i < |es| ==> es[i].machineId != id
    ensures WithoutMachine(es, id) == es
  {
    if es != [] {
      WithoutUnusedMachine(es[..|es| - 1], id);
      assert es == es[..|es| - 1] + [es[|es| - 1]];
    }
  }
}
