/** The client store: one cell per resource, fenced by revision. */
module Reducer {
  import opened Wrappers

  /** A resource value, as the text in which two visible snapshots are compared. */
  type Value = string

  datatype Resource = Devices | Library | Transfers | Storage | TransferJobs | Sessions(deviceId: string)

  datatype Cell = Cell(
    loading: bool,
    value: Option<Value>,
    error: Option<string>,
    rpcError: Option<string>,
    revision: int,
    lastGood: Option<Value>)

  datatype CommitResult = CommitResult(changed: bool, stale: bool)

  const UNCHANGED := CommitResult(false, false)
  const CHANGED := CommitResult(true, false)
  const STALE := CommitResult(false, true)

  const IDLE := Cell(false, None, None, None, -1, None)

  datatype Action =
    | Loaded(revision: nat, value: Value)
    | Failed(error: string, rpcError: Option<string>, asOf: Option<nat>)
    | Loading

  function Fresh(revision: int, value: Value): Cell {
    Cell(false, Some(value), None, None, revision, Some(value))
  }

  function LoadResource(current: Cell, revision: nat, value: Value): (Cell, CommitResult) {
    if revision < current.revision then
      (current, STALE)
    else
      var changed := current.value != Some(value) || current.loading || current.error.Some? || current.rpcError.Some?;
      (Fresh(revision, value), CommitResult(changed, false))
  }

  function FailResource(current: Cell, error: string, rpcError: Option<string>, asOf: Option<nat>)
    : (Cell, CommitResult)
  {
    if asOf.Some? && asOf.value < current.revision then
      (current, STALE)
    else
      var changed := current.error != Some(error) || current.rpcError != rpcError || current.loading
                     || current.value != current.lastGood;
      (current.(loading := false, error := Some(error), rpcError := rpcError, value := current.lastGood),
       CommitResult(changed, false))
  }

  function MarkLoading(current: Cell): (Cell, CommitResult) {
    if current.loading then (current, UNCHANGED)
    else (current.(loading := true, error := None, rpcError := None), CHANGED)
  }

  function Reduce(current: Cell, action: Action): (Cell, CommitResult) {
    match action
    case Loaded(revision, value) => LoadResource(current, revision, value)
    case Failed(error, rpcError, asOf) => FailResource(current, error, rpcError, asOf)
    case Loading => MarkLoading(current)
  }

  /** The cell after a run of actions on one resource. */
  function Replay(cell: Cell, actions: seq<Action>): Cell {
    if actions == [] then cell else Reduce(Replay(cell, actions[..|actions| - 1]), actions[|actions| - 1]).0
  }

  /** The cell shows its last good value, and has one exactly if something was ever loaded. */
  ghost predicate Coherent(cell: Cell) {
    && cell.value == cell.lastGood
    && -1 <= cell.revision
    && (cell.lastGood.None? <==> cell.revision == -1)
    && (cell.loading ==> cell.error.None? && cell.rpcError.None?)
  }

  /** A commit reports a change exactly if a view can see one: the revision and the value kept for
    * degrading are not shown. */
  lemma ChangedIsVisible(cell: Cell, action: Action)
    requires Coherent(cell)
    ensures var (next, result) := Reduce(cell, action);
      && Coherent(next)
      && (result.changed <==>
           (cell.loading, cell.value, cell.error, cell.rpcError) !=
           (next.loading, next.value, next.error, next.rpcError))
      && (result.stale ==> next == cell)
  {
  }

  /** What a view sees after a load: an older value is refused, and any other replaces what was there and
    * clears its failure, also one of the same revision. */
  lemma LoadShows(cell: Cell, revision: nat, value: Value)
    ensures var (next, result) := Reduce(cell, Loaded(revision, value));
      && (result.stale <==> revision < cell.revision)
      && (result.stale ==> next == cell && !result.changed)
      && (!result.stale ==> next == Cell(false, Some(value), None, None, revision, Some(value)))
  {
  }

  /** What a view sees after a failure: one of a read that is older than the cell is refused, and any other is
    * shown over the last good value, whose revision stays. */
  lemma FailureShows(cell: Cell, error: string, rpcError: Option<string>, asOf: Option<nat>)
    ensures var (next, result) := Reduce(cell, Failed(error, rpcError, asOf));
      && (result.stale <==> asOf.Some? && asOf.value < cell.revision)
      && (result.stale ==> next == cell && !result.changed)
      && (!result.stale ==> next == Cell(false, cell.lastGood, Some(error), rpcError, cell.revision, cell.lastGood))
  {
  }

  /** What a view sees while a resource is loading: the value that was there, and no failure. */
  lemma LoadingShows(cell: Cell)
    requires Coherent(cell)
    ensures var (next, result) := Reduce(cell, Loading);
      && !result.stale && (result.changed <==> !cell.loading)
      && next == Cell(true, cell.value, None, None, cell.revision, cell.lastGood)
  {
  }

  /** Loading, a failure or a stale value never takes the last good value away. */
  lemma LastGoodSurvives(cell: Cell, action: Action)
    requires Coherent(cell)
    ensures var next := Reduce(cell, action).0;
      && cell.revision <= next.revision
      && (next.lastGood == cell.lastGood ||
          (action.Loaded? && next.lastGood == Some(action.value) && next.revision == action.revision))
  {
  }

  type Cells = map<Resource, Cell>

  function CellOf(cells: Cells, r: Resource): Cell {
    if r in cells then cells[r] else IDLE
  }

  datatype Snapshot = Snapshot(devices: (nat, Value), library: (nat, Value),
                               transfers: (nat, Value), storage: (nat, Value))

  /** The four parts of a snapshot, in the order in which they are committed. */
  function Parts(s: Snapshot): seq<(Resource, (nat, Value))> {
    [(Devices, s.devices), (Library, s.library), (Transfers, s.transfers), (Storage, s.storage)]
  }

  function PartResult(cells: Cells, s: Snapshot, i: nat): CommitResult
    requires i < 4
  {
    var (r, (revision, value)) := Parts(s)[i];
    LoadResource(CellOf(cells, r), revision, value).1
  }

  function WithSnapshot(cells: Cells, s: Snapshot): Cells {
    cells[Devices := LoadResource(CellOf(cells, Devices), s.devices.0, s.devices.1).0]
         [Library := LoadResource(CellOf(cells, Library), s.library.0, s.library.1).0]
         [Transfers := LoadResource(CellOf(cells, Transfers), s.transfers.0, s.transfers.1).0]
         [Storage := LoadResource(CellOf(cells, Storage), s.storage.0, s.storage.1).0]
  }

  class AppStore {
    var cells: Cells

    constructor ()
      ensures forall r :: CellOf(cells, r) == IDLE
    {
      cells := map[];
    }

    method Commit(r: Resource, action: Action) returns (result: CommitResult)
      modifies this
      ensures cells == old(cells)[r := Reduce(CellOf(old(cells), r), action).0]
      ensures result == Reduce(CellOf(old(cells), r), action).1
    {
      var (next, outcome) := Reduce(CellOf(cells, r), action);
      cells := cells[r := next];
      result := outcome;
    }

    /** A snapshot is the load of each of its parts at its own revision; it is stale only as a whole. */
    method CommitSnapshot(s: Snapshot) returns (result: CommitResult)
      modifies this
      ensures cells == WithSnapshot(old(cells), s)
      ensures CellOf(cells, Devices) == LoadResource(CellOf(old(cells), Devices), s.devices.0, s.devices.1).0
      ensures CellOf(cells, Library) == LoadResource(CellOf(old(cells), Library), s.library.0, s.library.1).0
      ensures CellOf(cells, Transfers) == LoadResource(CellOf(old(cells), Transfers), s.transfers.0, s.transfers.1).0
      ensures CellOf(cells, Storage) == LoadResource(CellOf(old(cells), Storage), s.storage.0, s.storage.1).0
      ensures forall r | r !in {Devices, Library, Transfers, Storage} :: CellOf(cells, r) == CellOf(old(cells), r)
      ensures result.stale <==> forall i | 0 <= i < 4 :: PartResult(old(cells), s, i).stale
      ensures result.changed <==> exists i | 0 <= i < 4 :: PartResult(old(cells), s, i).changed
    {
      var devices := Commit(Devices, Loaded(s.devices.0, s.devices.1));
      var library := Commit(Library, Loaded(s.library.0, s.library.1));
      var transfers := Commit(Transfers, Loaded(s.transfers.0, s.transfers.1));
      var storage := Commit(Storage, Loaded(s.storage.0, s.storage.1));
      assert
        && PartResult(old(cells), s, 0) == devices && PartResult(old(cells), s, 1) == library
        && PartResult(old(cells), s, 2) == transfers && PartResult(old(cells), s, 3) == storage;
      result := CommitResult(
        devices.changed || library.changed || transfers.changed || storage.changed,
        devices.stale && library.stale && transfers.stale && storage.stale);
    }
  }
}
