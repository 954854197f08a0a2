/** Entities of the gym tracker: machines, workout records, exercise entries and sets. */
module Domain {

  datatype Option<+T> = None | Some(value: T)

  datatype Result<+T, +E> = Ok(value: T) | Err(error: E)

  /** Machine identifiers are opaque strings; the empty string means "no machine selected". */
  type Id = string

  /** A calendar date as a day number, 0 being 1970-01-01; `<` on day numbers is the order
      of the `YYYY-MM-DD` strings the program stores. */
  type Date = int

  /** The date the statistics start from when a machine has no later workout. */
  const Epoch: Date := 0

  /** The browser's URL parser, reduced to the question "is this an absolute http(s) URL?". */
  type UrlCheck = string -> bool

  /** One set: a weight (kg, as parsed by `parseFloat`) lifted `reps` times. */
  datatype SetRow = SetRow(weight: real, reps: int)

  datatype Machine = Machine(id: Id, name: string, image: Option<string>)

  /** One machine's logged performance on one day, with a snapshot of the machine's
      display name and image taken when it was logged. */
  datatype Entry = Entry(machineId: Id, machineName: string, machineImage: Option<string>,
                         sets: seq<SetRow>, notes: string)

  datatype Workout = Workout(date: Date, exercises: seq<Entry>)

  /** A set is acceptable when its weight is non-negative and its rep count positive. */
  predicate GoodSet(s: SetRow)
  {
    s.weight >= 0.0 && s.reps > 0
  }

  /** At most one entry per machine within each workout record. */
  predicate OneEntryPerMachine(ws: seq<Workout>)
  {
    forall k, i, j :: 0 <= k < |ws| && 0 <= i < j < |ws[k].exercises| ==>
      ws[k].exercises[i].machineId != ws[k].exercises[j].machineId
  }

  /** At most one workout record per date. */
  predicate UniqueDates(ws: seq<Workout>)
  {
    forall i, j :: 0 <= i < j < |ws| ==> ws[i].date != ws[j].date
  }
}
