/** The two stored documents and the handlers that change them. Each handler reads through
    the read path, changes the list it read, and writes it back through the write path. */
module Store {
  import opened Domain
  import opened Strings
  import opened Imgur
  import opened Registry
  import opened WorkoutLog

  /** The log's invariants: one entry per machine per day, one record per date, no empty
      record, and only sets with weight >= 0 and reps > 0. */
  predicate LogValid(ws: seq<Workout>)
  {
    OneEntryPerMachine(ws) && UniqueDates(ws) && NoEmptyDays(ws) && AllSetsGood(ws)
  }

  /** How `handleLogExercise` ends. */
  datatype LogOutcome = NoMachineSelected | NoValidSet | Logged | Replaced | Merged | Cancelled

  /** How `saveEditedExercise` ends. */
  datatype EditOutcome = EntryNotFound | EditNoValidSet | EditNoMachineSelected | Updated

  class GymStore {
    /** `isValidHttpUrl`, which the browser's URL parser decides. */
    const isHttpUrl: UrlCheck
    /** The stored machines document, as last written. */
    var machines: seq<Machine>
    /** The stored workouts document, as last written. */
    var workouts: seq<Workout>

    /** Empty storage: both documents read as empty lists. */
    constructor (isHttpUrl: UrlCheck)
      ensures this.isHttpUrl == isHttpUrl && machines == [] && workouts == []
      ensures Valid()
    {
      this.isHttpUrl := isHttpUrl;
      machines := [];
      workouts := [];
    }

    /** `getMachines` */
    function Machines(): seq<Machine>
      reads this
    {
      NormalizeMachines(machines, isHttpUrl)
    }

    /** `getWorkouts` */
    function Workouts(): seq<Workout>
      reads this
    {
      ReadWorkouts(workouts, machines, isHttpUrl)
    }

    /** What the handlers keep true of storage. */
    predicate Valid()
      reads this
    {
      WellFormedRegistry(machines, isHttpUrl) && LogValid(workouts)
    }

    /** The log's invariants other than one entry per machine per day. */
    predicate DaysValid()
      reads this
    {
      WellFormedRegistry(machines, isHttpUrl) && UniqueDates(workouts) && NoEmptyDays(workouts) && AllSetsGood(workouts)
    }

    /** `saveMachines` */
    method SaveMachines(ms: seq<Machine>)
      modifies this
      ensures machines == NormalizeMachines(ms, isHttpUrl) && workouts == old(workouts)
    {
      machines := NormalizeMachines(ms, isHttpUrl);
    }

    /** `saveWorkouts` */
    method SaveWorkouts(ws: seq<Workout>)
      modifies this
      ensures workouts == SaveForm(ws, isHttpUrl) && machines == old(machines)
    {
      workouts := SaveForm(ws, isHttpUrl);
    }

    /** `handleAddMachine`. `freshId` stands for `crypto.randomUUID()`. */
    method AddMachine(rawName: string, rawImage: string, freshId: Id) returns (r: Result<Machine, AddError>)
      modifies this
      ensures r == NewMachine(old(Machines()), rawName, rawImage, freshId, isHttpUrl)
      ensures r.Ok? ==> machines == NormalizeMachines(old(Machines()) + [r.value], isHttpUrl)
      ensures r.Err? ==> machines == old(machines)
      ensures workouts == old(workouts)
      ensures old(Valid()) && r.Ok? ==> machines == old(machines) + [r.value]
      ensures old(Valid()) && (r.Err? || !IdTaken(old(machines), freshId)) ==> Valid()
    {
      var name := Trim(rawName);
      var imageUrlInput := Trim(rawImage);
      if name == [] {
        return Err(EmptyName);
      }
      var formatted := if imageUrlInput != [] then FormatImgurUrl(imageUrlInput, isHttpUrl) else None;
      if imageUrlInput != [] && formatted.None? && !isHttpUrl(imageUrlInput) {
        return Err(InvalidImage);
      }
      var ms := Machines();
      if NameTaken(ms, name) {
        return Err(DuplicateName);
      }
      var m := Machine(freshId, name, formatted);
      r := Ok(m);
      assert r == NewMachine(ms, rawName, rawImage, freshId, isHttpUrl);
      ghost var wasValid := Valid();
      ghost var before := machines;
      SaveMachines(ms + [m]);
      if wasValid {
        AddedMachineStored(before, rawName, rawImage, freshId, isHttpUrl);
      }
    }

    /** `deleteMachine`: the machine removed, then every entry for it, then every record left
      empty. The workouts are read after the machines were written. */
    method DeleteMachine(id: Id)
      modifies this
      ensures machines == NormalizeMachines(RemoveMachine(old(Machines()), id), isHttpUrl)
      ensures workouts == SaveForm(Pruned(ReadWorkouts(old(workouts), machines, isHttpUrl), id), isHttpUrl)
      ensures !IdTaken(machines, id)
      ensures forall k, i :: 0 <= k < |workouts| && 0 <= i < |workouts[k].exercises| ==>
                workouts[k].exercises[i].machineId != id
      ensures old(Valid()) ==> Valid()
    {
      ghost var wasValid := Valid();
      ghost var oldMachines := machines;
      ghost var oldWorkouts := workouts;
      var ms := Machines();
      RemoveMachineMembers(ms, id);
      ms := RemoveMachine(ms, id);
      SaveMachines(ms);
      var ws := Workouts();
      ws := PruneMachine(ws, id);
      SaveWorkouts(ws);
      PrunedHasNoMachine(ReadWorkouts(oldWorkouts, machines, isHttpUrl), id);
      ReadAndSaveKeepShape(ws, [], isHttpUrl);
      assert SameShape(workouts, ws);
      if wasValid {
        NormalizeMachinesIdempotent(oldMachines, isHttpUrl);
        RemoveKeepsRegistryWellFormed(oldMachines, id, isHttpUrl);
        NormalizeMachinesIdempotent(ms, isHttpUrl);
        var read := ReadWorkouts(oldWorkouts, machines, isHttpUrl);
        ReadAndSaveKeepShape(oldWorkouts, machines, isHttpUrl);
        ShapeKeepsInvariants(read, oldWorkouts);
        PrunedKeepsInvariants(read, id);
        ShapeKeepsInvariants(workouts, ws);
      }
    }

    /** `handleLogExercise` outside the edit flow. `today` stands for the clock's UTC date and
      `choice` for the owner's answer when the day already has an entry for the machine. */
    method LogExercise(machineId: Id, rows: seq<SetInput>, rawNotes: string, today: Date, choice: Choice)
      returns (outcome: LogOutcome)
      modifies this
      ensures outcome == NoMachineSelected <==> machineId == []
      ensures outcome == NoValidSet <==> machineId != [] && AcceptedSets(rows) == []
      ensures outcome in {NoMachineSelected, NoValidSet, Cancelled} ==> workouts == old(workouts)
      ensures outcome !in {NoMachineSelected, NoValidSet} ==>
        var e := NewEntry(machineId, AcceptedSets(rows), Trim(rawNotes), old(Machines()));
        var r := LogResult(old(Workouts()), today, e, choice);
        && (outcome == Logged <==> !HasEntryFor(old(Workouts()), today, machineId))
        && (outcome == Replaced <==> HasEntryFor(old(Workouts()), today, machineId) && choice == Replace)
        && (outcome == Merged <==> HasEntryFor(old(Workouts()), today, machineId) && choice == Merge)
        && (outcome == Cancelled <==> HasEntryFor(old(Workouts()), today, machineId) && choice == Cancel)
        && (outcome != Cancelled ==> r.Some? && workouts == SaveForm(r.value, isHttpUrl))
      ensures machines == old(machines)
      ensures old(Valid()) ==> Valid()
    {
      var notes := Trim(rawNotes);
      if machineId == [] {
        return NoMachineSelected;
      }
      var sets, hasValidSet := CollectSets(rows);
      if !hasValidSet {
        return NoValidSet;
      }
      var e := NewEntry(machineId, sets, notes, Machines());
      outcome := Record(e, today, choice);
    }

    /** The part of `handleLogExercise` after validation: the entry placed in today's record,
      the owner's answer applied on a conflict, and the result written back. */
    method Record(e: Entry, today: Date, choice: Choice) returns (outcome: LogOutcome)
      requires forall s :: 0 <= s < |e.sets| ==> GoodSet(e.sets[s])
      modifies this
      ensures outcome == Logged <==> !HasEntryFor(old(Workouts()), today, e.machineId)
      ensures outcome == Replaced <==> HasEntryFor(old(Workouts()), today, e.machineId) && choice == Replace
      ensures outcome == Merged <==> HasEntryFor(old(Workouts()), today, e.machineId) && choice == Merge
      ensures outcome == Cancelled <==> HasEntryFor(old(Workouts()), today, e.machineId) && choice == Cancel
      ensures outcome == Cancelled ==> workouts == old(workouts)
      ensures outcome != Cancelled ==>
        LogResult(old(Workouts()), today, e, choice).Some?
        && workouts == SaveForm(LogResult(old(Workouts()), today, e, choice).value, isHttpUrl)
      ensures machines == old(machines)
      ensures old(Valid()) ==> Valid()
    {
      var ws := Workouts();
      var resolved, conflict := PlaceEntry(ws, today, e, choice);
      if resolved.None? {
        return Cancelled;
      }
      outcome := if !conflict then Logged else if choice == Replace then Replaced else Merged;
      ghost var wasValid := LogValid(workouts);
      SaveWorkouts(resolved.value);
      if wasValid {
        LogKeepsValid(old(workouts), machines, isHttpUrl, today, e, choice);
      }
    }

    /** `saveEditedExercise`: the entry at `index` of the record for `date` replaced by the
      form's contents. It does not check the day for another entry of the chosen machine. */
    method SaveEditedExercise(date: Date, index: int, machineId: Id, rows: seq<SetInput>, rawNotes: string)
      returns (outcome: EditOutcome)
      modifies this
      ensures var read := old(Workouts());
        outcome == EntryNotFound <==> DayIndex(read, date) < 0 || !(0 <= index < |read[DayIndex(read, date)].exercises|)
      ensures outcome == EditNoValidSet <==> outcome != EntryNotFound && AcceptedSets(rows) == []
      ensures outcome == EditNoMachineSelected <==>
        outcome != EntryNotFound && AcceptedSets(rows) != [] && machineId == []
      ensures outcome != Updated ==> workouts == old(workouts)
      ensures outcome == Updated ==>
        var e := NewEntry(machineId, AcceptedSets(rows), Trim(rawNotes), old(Machines()));
        var r := EditResult(old(Workouts()), date, index, e);
        r.Some? && workouts == SaveForm(r.value, isHttpUrl)
      ensures machines == old(machines)
      ensures old(Valid()) ==> DaysValid()
      ensures old(Valid()) && outcome == Updated ==>
        (machineId == old(Workouts())[DayIndex(old(Workouts()), date)].exercises[index].machineId ==> Valid())
    {
      var ws := Workouts();
      var k := DayIndex(ws, date);
      if k < 0 || !(0 <= index < |ws[k].exercises|) {
        return EntryNotFound;
      }
      var notes := Trim(rawNotes);
      var sets, hasValidSet := CollectSets(rows);
      if !hasValidSet {
        return EditNoValidSet;
      }
      if machineId == [] {
        return EditNoMachineSelected;
      }
      var e := NewEntry(machineId, sets, notes, Machines());
      ghost var read := ws;
      ws := ws[k := ws[k].(exercises := ws[k].exercises[index := e])];
      assert EditResult(read, date, index, e) == Some(ws);
      ghost var wasValid := Valid();
      SaveWorkouts(ws);
      outcome := Updated;
      if wasValid {
        EditKeepsValid(old(workouts), machines, isHttpUrl, date, index, e);
      }
    }

    /** `deleteExercise`: nothing happens for an unknown date; otherwise the entry is spliced
      out, the record dropped if it is left empty, and the list written back. */
    method DeleteExercise(date: Date, index: int) returns (saved: bool)
      modifies this
      ensures saved <==> DayIndex(old(Workouts()), date) >= 0
      ensures !saved ==> workouts == old(workouts)
      ensures saved ==> DeleteResult(old(Workouts()), date, index).Some?
                          && workouts == SaveForm(DeleteResult(old(Workouts()), date, index).value, isHttpUrl)
      ensures machines == old(machines)
      ensures old(Valid()) ==> Valid()
    {
      var ws := Workouts();
      var r := SpliceEntry(ws, date, index);
      if r.Some? {
        ghost var wasValid := Valid();
        SaveWorkouts(r.value);
        saved := true;
        if wasValid {
          DeleteKeepsValid(old(workouts), machines, isHttpUrl, date, index);
        }
      } else {
        saved := false;
      }
    }
  }

  /** The steps of `deleteExercise` on the list it read: `None` for an unknown date;
      otherwise the entry spliced out and the record removed if it is left empty. */
  method SpliceEntry(workouts: seq<Workout>, date: Date, index: int) returns (r: Option<seq<Workout>>)
    ensures r == DeleteResult(workouts, date, index)
  {
    var ws := workouts;
    var workoutIndex := DayIndex(ws, date);
    if workoutIndex > -1 {
      var exercises := SpliceOne(ws[workoutIndex].exercises, index);
      ws := ws[workoutIndex := ws[workoutIndex].(exercises := exercises)];
      if |ws[workoutIndex].exercises| == 0 {
        ws := ws[..workoutIndex] + ws[workoutIndex + 1..];
      }
      r := Some(ws);
    } else {
      r := None;
    }
  }

  /** The steps of `handleLogExercise` on the list it read: find or append today's record,
      then append the entry, or replace or merge into the entry for the same machine, as the
      owner chose. `None` when the owner cancelled. */
  method PlaceEntry(workouts: seq<Workout>, today: Date, e: Entry, choice: Choice)
    returns (r: Option<seq<Workout>>, conflict: bool)
    ensures r == LogResult(workouts, today, e, choice)
    ensures conflict <==> HasEntryFor(workouts, today, e.machineId)
  {
    var ws := workouts;
    var k := DayIndex(ws, today);
    if k < 0 {
      ws := ws + [Workout(today, [])];
      k := |ws| - 1;
    }
    var j := EntryIndex(ws[k].exercises, e.machineId);
    conflict := j > -1;
    if j > -1 {
      match choice
      case Replace =>
        ws := ws[k := ws[k].(exercises := ws[k].exercises[j := e])];
      case Merge =>
        var existing := ws[k].exercises[j];
        existing := existing.(sets := existing.sets + e.sets);
        if e.notes != [] {
          existing := existing.(notes := e.notes);
        }
        ws := ws[k := ws[k].(exercises := ws[k].exercises[j := existing])];
      case Cancel =>
        return None, conflict;
    } else {
      ws := ws[k := ws[k].(exercises := ws[k].exercises + [e])];
    }
    r := Some(ws);
  }

  /** Writing a well-formed registry plus an accepted machine stores exactly that list, and
      it stays well formed when the id is unused. */
  lemma AddedMachineStored(before: seq<Machine>, rawName: string, rawImage: string, freshId: Id, isHttpUrl: UrlCheck)
    requires WellFormedRegistry(before, isHttpUrl)
    requires NewMachine(NormalizeMachines(before, isHttpUrl), rawName, rawImage, freshId, isHttpUrl).Ok?
    ensures var m := NewMachine(NormalizeMachines(before, isHttpUrl), rawName, rawImage, freshId, isHttpUrl).value;
      && NormalizeMachines(NormalizeMachines(before, isHttpUrl) + [m], isHttpUrl) == before + [m]
      && (!IdTaken(before, freshId) ==> WellFormedRegistry(before + [m], isHttpUrl))
  {
    NormalizeMachinesIdempotent(before, isHttpUrl);
    var ms := NormalizeMachines(before, isHttpUrl);
    assert ms == before;
    NewMachineImageNormal(ms, rawName, rawImage, freshId, isHttpUrl);
    var m := NewMachine(ms, rawName, rawImage, freshId, isHttpUrl).value;
    AppendNormal(before, m, isHttpUrl);
    if !IdTaken(before, freshId) {
      AddKeepsRegistryWellFormed(before, rawName, rawImage, freshId, isHttpUrl);
    }
  }

  /** An accepted machine's image is in normal form. */
  lemma NewMachineImageNormal(ms: seq<Machine>, rawName: string, rawImage: string, freshId: Id, isHttpUrl: UrlCheck)
    requires NewMachine(ms, rawName, rawImage, freshId, isHttpUrl).Ok?
    ensures var m := NewMachine(ms, rawName, rawImage, freshId, isHttpUrl).value;
            NormalizeImage(m.image, isHttpUrl) == m.image
  {
    NormalizeImageIdempotent(Some(Trim(rawImage)), isHttpUrl);
  }

  lemma AppendNormal(ms: seq<Machine>, m: Machine, isHttpUrl: UrlCheck)
    requires ImagesNormalized(ms, isHttpUrl) && NormalizeImage(m.image, isHttpUrl) == m.image
    ensures NormalizeMachines(ms + [m], isHttpUrl) == ms + [m]
  {
    NormalizeMachinesIdempotent(ms + [m], isHttpUrl);
  }

  /** Logging into what was read, then writing, keeps every invariant of the stored log. */
  lemma LogKeepsValid(stored: seq<Workout>, ms: seq<Machine>, isHttpUrl: UrlCheck, date: Date, e: Entry, choice: Choice)
    requires LogValid(stored)
    requires forall s :: 0 <= s < |e.sets| ==> GoodSet(e.sets[s])
    requires LogResult(ReadWorkouts(stored, ms, isHttpUrl), date, e, choice).Some?
    ensures LogValid(SaveForm(LogResult(ReadWorkouts(stored, ms, isHttpUrl), date, e, choice).value, isHttpUrl))
  {
    var read := ReadWorkouts(stored, ms, isHttpUrl);
    ReadAndSaveKeepShape(stored, ms, isHttpUrl);
    ShapeKeepsInvariants(read, stored);
    LogKeepsOneEntryPerMachine(read, date, e, choice);
    LogKeepsDaysWellFormed(read, date, e, choice);
    LogKeepsSetsGood(read, date, e, choice);
    var r := LogResult(read, date, e, choice).value;
    ReadAndSaveKeepShape(r, [], isHttpUrl);
    ShapeKeepsInvariants(SaveForm(r, isHttpUrl), r);
  }

  /** Writing back an edit of what was read keeps one record per date, no empty record and
      good sets, and keeps one entry per machine per day when the machine is unchanged. */
  lemma EditKeepsValid(stored: seq<Workout>, ms: seq<Machine>, isHttpUrl: UrlCheck, date: Date, index: int, e: Entry)
    requires LogValid(stored)
    requires forall s :: 0 <= s < |e.sets| ==> GoodSet(e.sets[s])
    requires EditResult(ReadWorkouts(stored, ms, isHttpUrl), date, index, e).Some?
    ensures var w := SaveForm(EditResult(ReadWorkouts(stored, ms, isHttpUrl), date, index, e).value, isHttpUrl);
      && UniqueDates(w) && NoEmptyDays(w) && AllSetsGood(w)
      && (var read := ReadWorkouts(stored, ms, isHttpUrl);
          e.machineId == read[DayIndex(read, date)].exercises[index].machineId ==> LogValid(w))
  {
    var read := ReadWorkouts(stored, ms, isHttpUrl);
    ReadAndSaveKeepShape(stored, ms, isHttpUrl);
    ShapeKeepsInvariants(read, stored);
    EditKeepsDaysWellFormed(read, date, index, e);
    var r := EditResult(read, date, index, e).value;
    ReadAndSaveKeepShape(r, [], isHttpUrl);
    ShapeKeepsInvariants(SaveForm(r, isHttpUrl), r);
    if e.machineId == read[DayIndex(read, date)].exercises[index].machineId {
      EditSameMachineKeepsOneEntryPerMachine(read, date, index, e);
    }
  }

  /** Writing back a deletion from what was read keeps the log's invariants. */
  lemma DeleteKeepsValid(stored: seq<Workout>, ms: seq<Machine>, isHttpUrl: UrlCheck, date: Date, index: int)
    requires LogValid(stored)
    requires DeleteResult(ReadWorkouts(stored, ms, isHttpUrl), date, index).Some?
    ensures LogValid(SaveForm(DeleteResult(ReadWorkouts(stored, ms, isHttpUrl), date, index).value, isHttpUrl))
  {
    var read := ReadWorkouts(stored, ms, isHttpUrl);
    ReadAndSaveKeepShape(stored, ms, isHttpUrl);
    ShapeKeepsInvariants(read, stored);
    DeleteKeepsInvariants(read, date, index);
    var r := DeleteResult(read, date, index).value;
    ReadAndSaveKeepShape(r, [], isHttpUrl);
    ShapeKeepsInvariants(SaveForm(r, isHttpUrl), r);
  }
}
