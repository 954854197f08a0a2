/** The machine registry: image normalisation on read and write, and the checks `handleAddMachine`
    makes before a machine is appended. */
module Registry {
  import opened Domain
  import opened Strings
  import opened Imgur

  /** `m.image ? formatImgurUrl(m.image) : null`: an empty or missing image is null. */
  function NormalizeImage(image: Option<string>, isHttpUrl: UrlCheck): (r: Option<string>)
    ensures r.Some? ==> image.Some? && r.value != [] && r == FormatImgurUrl(image.value, isHttpUrl)
    ensures image.None? || image.value == [] ==> r.None?
  {
    match image
    case None => None
    case Some(s) => if s == [] then None else FormatImgurUrl(s, isHttpUrl)
  }

  /** Normalising an image twice is normalising it once. */
  lemma NormalizeImageIdempotent(image: Option<string>, isHttpUrl: UrlCheck)
    ensures NormalizeImage(NormalizeImage(image, isHttpUrl), isHttpUrl) == NormalizeImage(image, isHttpUrl)
  {
    if NormalizeImage(image, isHttpUrl).Some? {
      FormatImgurUrlIdempotent(image.value, isHttpUrl);
    }
  }

  /** The map `getMachines` applies on every read and `saveMachines` on every write. */
  function NormalizeMachines(ms: seq<Machine>, isHttpUrl: UrlCheck): (r: seq<Machine>)
    ensures |r| == |ms|
    ensures forall i :: 0 <= i < |ms| ==> r[i].id == ms[i].id && r[i].name == ms[i].name
    ensures forall i :: 0 <= i < |ms| ==> r[i].image == NormalizeImage(ms[i].image, isHttpUrl)
  {
    seq(|ms|, i requires 0 <= i < |ms| => ms[i].(image := NormalizeImage(ms[i].image, isHttpUrl)))
  }

  /** Every stored image is already in normal form. */
  predicate ImagesNormalized(ms: seq<Machine>, isHttpUrl: UrlCheck)
  {
    forall i :: 0 <= i < |ms| ==> NormalizeImage(ms[i].image, isHttpUrl) == ms[i].image
  }

  /** Reading re-normalises, but a list that was written is already normal: a read of it
      returns it unchanged, and reading twice is reading once. */
  lemma NormalizeMachinesIdempotent(ms: seq<Machine>, isHttpUrl: UrlCheck)
    ensures ImagesNormalized(NormalizeMachines(ms, isHttpUrl), isHttpUrl)
    ensures ImagesNormalized(ms, isHttpUrl) ==> NormalizeMachines(ms, isHttpUrl) == ms
  {
    var r := NormalizeMachines(ms, isHttpUrl);
    forall i | 0 <= i < |ms|
      ensures NormalizeImage(r[i].image, isHttpUrl) == r[i].image
    {
      NormalizeImageIdempotent(ms[i].image, isHttpUrl);
    }
    if ImagesNormalized(ms, isHttpUrl) {
      assert forall i :: 0 <= i < |ms| ==> r[i] == ms[i];
    }
  }

  predicate SameNameIgnoringCase(a: string, b: string)
  {
    LowerAscii(a) == LowerAscii(b)
  }

  /** `machines.some(m => m.name.toLowerCase() === name.toLowerCase())` */
  predicate NameTaken(ms: seq<Machine>, name: string)
  {
    exists i :: 0 <= i < |ms| && SameNameIgnoringCase(ms[i].name, name)
  }

  predicate IdTaken(ms: seq<Machine>, id: Id)
  {
    exists i :: 0 <= i < |ms| && ms[i].id == id
  }

  /** The registry's invariant: non-empty, trimmed names that differ ignoring case, distinct
      ids, and images in normal form. */
  predicate WellFormedRegistry(ms: seq<Machine>, isHttpUrl: UrlCheck)
  {
    && NamesTrimmed(ms)
    && DistinctIds(ms)
    && DistinctNames(ms)
    && ImagesNormalized(ms, isHttpUrl)
  }

  predicate NamesTrimmed(ms: seq<Machine>)
  {
    forall i :: 0 <= i < |ms| ==> ms[i].name != [] && Trim(ms[i].name) == ms[i].name
  }

  predicate DistinctIds(ms: seq<Machine>)
  {
    forall i, j :: 0 <= i < j < |ms| ==> ms[i].id != ms[j].id
  }

  predicate DistinctNames(ms: seq<Machine>)
  {
    forall i, j :: 0 <= i < j < |ms| ==> !SameNameIgnoringCase(ms[i].name, ms[j].name)
  }

  datatype AddError = EmptyName | InvalidImage | DuplicateName

  /** The checks of `handleAddMachine` against the machines as read, and the record it would
      append: the trimmed name, a fresh id and the normalised image. */
  function NewMachine(ms: seq<Machine>, rawName: string, rawImage: string, freshId: Id,
                      isHttpUrl: UrlCheck): (r: Result<Machine, AddError>)
    ensures r == Err(EmptyName) <==> Trim(rawName) == []
    ensures r == Err(InvalidImage) <==>
      Trim(rawName) != [] && Trim(rawImage) != [] && FormatImgurUrl(Trim(rawImage), isHttpUrl).None?
    ensures r == Err(DuplicateName) <==>
      Trim(rawName) != [] && (Trim(rawImage) == [] || FormatImgurUrl(Trim(rawImage), isHttpUrl).Some?)
      && NameTaken(ms, Trim(rawName))
    ensures r.Ok? ==>
              && r.value.id == freshId && r.value.name == Trim(rawName) && r.value.name != []
              && r.value.image == NormalizeImage(Some(Trim(rawImage)), isHttpUrl)
              && !NameTaken(ms, r.value.name)
  {
    var name := Trim(rawName);
    var imageInput := Trim(rawImage);
    if name == [] then Err(EmptyName)
    else
      var formatted := if imageInput != [] then FormatImgurUrl(imageInput, isHttpUrl) else None;
      if imageInput != [] && formatted.None? && !isHttpUrl(imageInput) then Err(InvalidImage)
      else if NameTaken(ms, name) then Err(DuplicateName)
      else
        TrimIdempotent(rawImage);
        Ok(Machine(freshId, name, formatted))
  }

  /** Appending an accepted machine with an unused id keeps the registry well formed. */
  lemma AddKeepsRegistryWellFormed(ms: seq<Machine>, rawName: string, rawImage: string, freshId: Id,
                                   isHttpUrl: UrlCheck)
    requires WellFormedRegistry(ms, isHttpUrl)
    requires !IdTaken(ms, freshId)
    requires NewMachine(ms, rawName, rawImage, freshId, isHttpUrl).Ok?
    ensures WellFormedRegistry(ms + [NewMachine(ms, rawName, rawImage, freshId, isHttpUrl).value], isHttpUrl)
  {
    var m := NewMachine(ms, rawName, rawImage, freshId, isHttpUrl).value;
    TrimIdempotent(rawName);
    NormalizeImageIdempotent(Some(Trim(rawImage)), isHttpUrl);
    AppendKeepsWellFormed(ms, m, isHttpUrl);
  }

  lemma AppendKeepsWellFormed(ms: seq<Machine>, m: Machine, isHttpUrl: UrlCheck)
    requires WellFormedRegistry(ms, isHttpUrl)
    requires m.name != [] && Trim(m.name) == m.name
    requires !IdTaken(ms, m.id) && !NameTaken(ms, m.name)
    requires NormalizeImage(m.image, isHttpUrl) == m.image
    ensures WellFormedRegistry(ms + [m], isHttpUrl)
  {
    AppendKeepsNamesTrimmed(ms, m);
    AppendKeepsDistinctIds(ms, m);
    AppendKeepsDistinctNames(ms, m);
    AppendKeepsImagesNormalized(ms, m, isHttpUrl);
  }

  lemma AppendKeepsNamesTrimmed(ms: seq<Machine>, m: Machine)
    requires NamesTrimmed(ms) && m.name != [] && Trim(m.name) == m.name
    ensures NamesTrimmed(ms + [m])
  {
    var r := ms + [m];
    forall i | 0 <= i < |r|
      ensures r[i].name != [] && Trim(r[i].name) == r[i].name
    {
      if i < |ms| {
        assert r[i] == ms[i];
      }
    }
  }

  lemma AppendKeepsDistinctIds(ms: seq<Machine>, m: Machine)
    requires DistinctIds(ms) && !IdTaken(ms, m.id)
    ensures DistinctIds(ms + [m])
  {
    var r := ms + [m];
    forall i, j | 0 <= i < j < |r|
      ensures r[i].id != r[j].id
    {
      assert r[i] == ms[i];
      if j < |ms| {
        assert r[j] == ms[j];
      }
    }
  }

  lemma AppendKeepsDistinctNames(ms: seq<Machine>, m: Machine)
    requires DistinctNames(ms) && !NameTaken(ms, m.name)
    ensures DistinctNames(ms + [m])
  {
    var r := ms + [m];
    forall i, j | 0 <= i < j < |r|
      ensures !SameNameIgnoringCase(r[i].name, r[j].name)
    {
      assert r[i] == ms[i];
      if j < |ms| {
        assert r[j] == ms[j];
      }
    }
  }

  lemma AppendKeepsImagesNormalized(ms: seq<Machine>, m: Machine, isHttpUrl: UrlCheck)
    requires ImagesNormalized(ms, isHttpUrl) && NormalizeImage(m.image, isHttpUrl) == m.image
    ensures ImagesNormalized(ms + [m], isHttpUrl)
  {
    var r := ms + [m];
    forall i | 0 <= i < |r|
      ensures NormalizeImage(r[i].image, isHttpUrl) == r[i].image
    {
      if i < |ms| {
        assert r[i] == ms[i];
      }
    }
  }

  /** `machines.filter(m => m.id !== machineId)` */
  function RemoveMachine(ms: seq<Machine>, id: Id): (r: seq<Machine>)
    ensures |r| <= |ms|
  {
    if ms == [] then []
    else if ms[0].id == id then RemoveMachine(ms[1..], id)
    else [ms[0]] + RemoveMachine(ms[1..], id)
  }

  lemma RemoveMachineSingle(m: Machine, id: Id)
    ensures RemoveMachine([m], id) == if m.id != id then [m] else []
  {
    assert [m][1..] == [];
  }

  lemma RemoveMachineCons(m: Machine, rest: seq<Machine>, id: Id)
    ensures RemoveMachine([m] + rest, id) == (if m.id != id then [m] else []) + RemoveMachine(rest, id)
  {
    assert ([m] + rest)[1..] == rest;
  }

  /** The filter keeps the other machines in order, each as often as it occurs. */
  lemma {:induction false} RemoveMachineAppend(a: seq<Machine>, b: seq<Machine>, id: Id)
    ensures RemoveMachine(a + b, id) == RemoveMachine(a, id) + RemoveMachine(b, id)
  {
    if a == [] {
      assert a + b == b;
    } else {
      var x, t := a[0], a[1..];
      assert a == [x] + t;
      assert a + b == [x] + (t + b);
      RemoveMachineAppend(t, b, id);
      RemoveMachineCons(x, t + b, id);
      RemoveMachineCons(x, t, id);
    }
  }

  /** Every machine with another id is kept. */
  lemma {:induction false} RemoveMachineKeepsOthers(ms: seq<Machine>, id: Id)
    ensures forall i :: 0 <= i < |ms| && ms[i].id != id ==> ms[i] in RemoveMachine(ms, id)
  {
    if ms != [] {
      var t := ms[1..];
      RemoveMachineKeepsOthers(t, id);
      RemoveMachineCons(ms[0], t, id);
      assert ms == [ms[0]] + t;
      assert forall i :: 1 <= i < |ms| ==> ms[i] == t[i - 1];
    }
  }

  /** Only machines of the list with another id are kept. */
  lemma {:induction false} RemoveMachineMembers(ms: seq<Machine>, id: Id)
    ensures forall i :: 0 <= i < |RemoveMachine(ms, id)| ==>
              RemoveMachine(ms, id)[i] in ms && RemoveMachine(ms, id)[i].id != id
  {
    if ms != [] {
      var t := ms[1..];
      RemoveMachineMembers(t, id);
      RemoveMachineCons(ms[0], t, id);
      assert ms == [ms[0]] + t;
      var r, rt := RemoveMachine(ms, id), RemoveMachine(t, id);
      forall i | 0 <= i < |r|
        ensures r[i] in ms && r[i].id != id
      {
        if ms[0].id != id && i == 0 {
          assert r[0] == ms[0];
        } else {
          var k := if ms[0].id != id then i - 1 else i;
          assert r[i] == rt[k];
        }
      }
    }
  }

  /** Deleting an id no machine has changes nothing. */
  lemma {:induction false} RemoveMachineUnused(ms: seq<Machine>, id: Id)
    requires !IdTaken(ms, id)
    ensures RemoveMachine(ms, id) == ms
  {
    if ms != [] {
      var t := ms[1..];
      assert !IdTaken(t, id) by {
        assert forall i :: 0 <= i < |t| ==> t[i] == ms[i + 1];
      }
      RemoveMachineUnused(t, id);
      RemoveMachineCons(ms[0], t, id);
      assert ms == [ms[0]] + t;
    }
  }

  /** Removing a machine keeps the registry well formed. */
  lemma {:induction false} RemoveKeepsRegistryWellFormed(ms: seq<Machine>, id: Id, isHttpUrl: UrlCheck)
    requires WellFormedRegistry(ms, isHttpUrl)
    ensures WellFormedRegistry(RemoveMachine(ms, id), isHttpUrl)
  {
    var r := RemoveMachine(ms, id);
    RemoveMachineMembers(ms, id);
    forall i | 0 <= i < |r|
      ensures r[i].name != [] && Trim(r[i].name) == r[i].name
      ensures NormalizeImage(r[i].image, isHttpUrl) == r[i].image
    {
      assert r[i] in ms;
    }
    RemoveKeepsDistinct(ms, id);
  }

  lemma {:induction false} RemoveKeepsDistinct(ms: seq<Machine>, id: Id)
    requires DistinctIds(ms) && DistinctNames(ms)
    ensures DistinctIds(RemoveMachine(ms, id)) && DistinctNames(RemoveMachine(ms, id))
  {
    if ms != [] {
      var tail := ms[1..];
      assert forall i :: 0 <= i < |tail| ==> tail[i] == ms[i + 1];
      RemoveKeepsDistinct(tail, id);
      RemoveMachineMembers(tail, id);
      var t := RemoveMachine(tail, id);
      if ms[0].id != id {
        var r := [ms[0]] + t;
        assert r[0] == ms[0];
        assert forall i :: 0 < i < |r| ==> r[i] == t[i - 1];
        forall j | 0 < j < |r|
          ensures r[0].id != r[j].id && !SameNameIgnoringCase(r[0].name, r[j].name)
        {
          assert r[j] == t[j - 1] && t[j - 1] in tail;
          var k := InTail(ms, r[j]);
        }
        assert DistinctIds(r);
        assert DistinctNames(r);
      }
    }
  }

  lemma InTail(ms: seq<Machine>, x: Machine) returns (k: nat)
    requires ms != [] && x in ms[1..]
    ensures 1 <= k < |ms| && ms[k] == x
  {
    var k' :| 0 <= k' < |ms| - 1 && ms[1..][k'] == x;
    k := k' + 1;
  }

  /** The index of the first machine with that id, or -1. */
  function MachineIndex(ms: seq<Machine>, id: Id): (i: int)
    ensures -1 <= i < |ms|
    ensures i >= 0 ==> ms[i].id == id
    ensures forall j :: 0 <= j < |ms| && (i < 0 || j < i) ==> ms[j].id != id
  {
    if ms == [] then -1
    else if ms[|ms| - 1].id == id && MachineIndex(ms[..|ms| - 1], id) < 0 then |ms| - 1
    else MachineIndex(ms[..|ms| - 1], id)
  }

  /** `allMachines.find(m => m.id === id)`: the first machine with that id. */
  function FindMachine(ms: seq<Machine>, id: Id): (r: Option<Machine>)
    ensures r.Some? <==> IdTaken(ms, id)
    ensures r.Some? ==> r.value.id == id && r.value == ms[MachineIndex(ms, id)]
  {
    var i := MachineIndex(ms, id);
    if i < 0 then None else Some(ms[i])
  }
}
