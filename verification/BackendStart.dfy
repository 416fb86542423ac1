/** Starting the client: subscribe, buffer, read, replay what the read does not cover, go live. */
module BackendStart {
  import opened Wrappers
  import opened Reducer

  datatype Event =
    | Update(resource: Resource, revision: nat, value: Value)
    | PairingTick(revision: nat)

  /** What the reads of the start returned, with the revision of each resource. */
  type Reads = map<Resource, (nat, Value)>

  /** What the view is shown of a failure. */
  datatype Problem = Problem(message: string, rpcError: Option<string>)

  datatype ReadResult =
    | Whole(snapshot: Snapshot)
    | OneByOne(known: Reads, problems: Resource -> Problem)   // a recognized failure: each resource on its own
    | Fatal(problem: Problem)

  /** What the view does while it is told of an event. */
  datatype Act = Emit(event: Event) | Dispose | Throw

  const BOOT: seq<Resource> := [Devices, Library, Transfers, Storage]

  predicate Covered(known: Reads, e: Event) {
    e.Update? && e.resource in known && e.revision <= known[e.resource].0
  }

  /** One of the notifications throws. */
  predicate Throws(acts: seq<seq<Act>>) {
    exists todo <- acts :: Throw in todo
  }

  lemma ThrowsCons(acts: seq<seq<Act>>, n: nat)
    requires n < |acts|
    ensures Throws(acts[..n + 1]) <==> Throw in acts[0] || Throws(acts[1..][..n])
  {
    assert acts[..n + 1] == [acts[0]] + acts[1..][..n];
  }

  function Uncovered(known: Reads, events: seq<Event>): seq<Event> {
    if events == [] then
      []
    else
      var n := |events| - 1;
      Uncovered(known, events[..n]) + if Covered(known, events[n]) then [] else [events[n]]
  }

  function CommitEvent(cells: Cells, e: Event): Cells {
    match e
    case Update(r, revision, value) => cells[r := LoadResource(CellOf(cells, r), revision, value).0]
    case PairingTick(_) => cells
  }

  function CommitAll(cells: Cells, events: seq<Event>): Cells {
    if events == [] then cells
    else CommitEvent(CommitAll(cells, events[..|events| - 1]), events[|events| - 1])
  }

  lemma Extended(known: Reads, cells: Cells, events: seq<Event>, e: Event)
    ensures Uncovered(known, events + [e]) == Uncovered(known, events) + if Covered(known, e) then [] else [e]
    ensures CommitAll(cells, events + [e]) == CommitEvent(CommitAll(cells, events), e)
  {
    assert (events + [e])[..|events|] == events;
  }

  /* ------------------------------ dropping what is covered ------------------------------ */

  /** The reads are in the store, or something newer is. */
  ghost predicate Settled(known: Reads, cells: Cells) {
    forall r <- known :: r in cells && (cells[r].revision > known[r].0 || cells[r] == Fresh(known[r].0, known[r].1))
  }

  /** A revision stands for one value. */
  ghost predicate Agrees(known: Reads, events: seq<Event>) {
    forall e <- events | e.Update? && e.resource in known && e.revision == known[e.resource].0 ::
      e.value == known[e.resource].1
  }

  /** A covered event leaves a settled store as it is. */
  lemma CoveredIsInert(known: Reads, cells: Cells, e: Event)
    requires Settled(known, cells) && Covered(known, e)
    requires e.revision == known[e.resource].0 ==> e.value == known[e.resource].1
    ensures CommitEvent(cells, e) == cells
  {
    assert cells[e.resource] == LoadResource(cells[e.resource], e.revision, e.value).0;
  }

  lemma SettledIsKept(known: Reads, cells: Cells, e: Event)
    requires Settled(known, cells)
    requires Covered(known, e) && e.revision == known[e.resource].0 ==> e.value == known[e.resource].1
    ensures Settled(known, CommitEvent(cells, e))
  {
  }

  /** Dropping the covered events leaves the very state that committing them all would. */
  lemma {:induction false} DroppingIsHarmless(known: Reads, cells: Cells, events: seq<Event>)
    requires Settled(known, cells) && Agrees(known, events)
    ensures CommitAll(cells, Uncovered(known, events)) == CommitAll(cells, events)
    ensures Settled(known, CommitAll(cells, events))
  {
    if events == [] {
    } else {
      var before, e := events[..|events| - 1], events[|events| - 1];
      assert forall x <- before :: x in events;
      DroppingIsHarmless(known, cells, before);
      SettledIsKept(known, CommitAll(cells, before), e);
      if Covered(known, e) {
        CoveredIsInert(known, CommitAll(cells, before), e);
        assert Uncovered(known, events) == Uncovered(known, before);
      } else {
        Extended(known, cells, Uncovered(known, before), e);
      }
    }
  }

  /** A cell into which nothing has been loaded. */
  predicate Empty(cell: Cell) {
    cell.revision < 0 && cell.value.None? && cell.lastGood.None?
  }

  /** The cell shows that it is loading, and no failure, over the value that it had. */
  ghost predicate ShowsLoading(cell: Cell, before: Cell) {
    && cell.loading && (Coherent(before) ==> cell.error.None? && cell.rpcError.None?)
    && cell.value == before.value && cell.lastGood == before.lastGood && cell.revision == before.revision
  }

  /** The cell shows the failure of a read, over the last good value that it had. */
  predicate ShowsFailure(cell: Cell, before: Cell, problem: Problem) {
    && cell.error == Some(problem.message) && cell.rpcError == problem.rpcError && !cell.loading
    && cell.value == cell.lastGood == before.lastGood && cell.revision == before.revision
  }

  /** What a start makes of an empty cell: what it has read, or an empty cell still. */
  predicate Booted(known: Reads, r: Resource, cell: Cell) {
    if r in known then cell == Fresh(known[r].0, known[r].1) else Empty(cell)
  }

  /** A cell after its single read. */
  function AfterRead(cell: Cell, r: Resource, loaded: Reads, problems: Resource -> Problem): Cell {
    if r in loaded then LoadResource(cell, loaded[r].0, loaded[r].1).0
    else FailResource(cell, problems(r).message, problems(r).rpcError, None).0
  }

  lemma ReadsSettle(cells: Cells, after: Cells, loaded: Reads, problems: Resource -> Problem, known: Reads)
    requires forall r ::
      CellOf(after, r) == if r in BOOT then AfterRead(CellOf(cells, r), r, loaded, problems) else CellOf(cells, r)
    requires (forall r <- BOOT :: r in after) && known == map r | r in loaded && r in BOOT :: loaded[r]
    ensures Settled(known, after)
    ensures forall r <- BOOT | r !in loaded :: ShowsFailure(CellOf(after, r), CellOf(cells, r), problems(r))
    ensures forall r | Empty(CellOf(cells, r)) :: Booted(known, r, CellOf(after, r))
  {
  }

  function ReadsOf(s: Snapshot): Reads {
    map[Devices := s.devices, Library := s.library, Transfers := s.transfers, Storage := s.storage]
  }

  /** A committed snapshot is settled, and fills every cell that was never loaded. */
  lemma SnapshotSettles(cells: Cells, s: Snapshot)
    ensures Settled(ReadsOf(s), WithSnapshot(cells, s))
    ensures forall r | CellOf(cells, r).revision < 0 ::
      CellOf(WithSnapshot(cells, s), r) ==
      if r in ReadsOf(s) then Fresh(ReadsOf(s)[r].0, ReadsOf(s)[r].1) else CellOf(cells, r)
  {
  }

  /* ------------------------------ the session ------------------------------ */

  class BackendSession {
    const store: AppStore
    var buffer: Option<seq<Event>>
    var cursor: nat
    var disposed: bool
    var known: Reads

    /** What the view does at its next notifications. */
    var acts: seq<seq<Act>>

    /** The events received and those given to the store, until disposal. */
    ghost var received: seq<Event>
    ghost var delivered: seq<Event>

    /** What the view was told of: the reads, and events. */
    ghost var readsTold: bool
    ghost var told: seq<Event>

    /** The state of the store when the reads had been committed. */
    ghost var base: Cells

    /** Whether the session has gone live, and after how many events. */
    ghost var live: bool
    ghost var handoff: nat

    constructor (store: AppStore, acts: seq<seq<Act>>)
      ensures this.store == store && this.acts == acts
      ensures Valid() && Waiting() && received == []
    {
      this.store, this.acts := store, acts;
      buffer, cursor, disposed, known := Some([]), 0, false, map[];
      received, delivered, base, live, handoff := [], [], store.cells, false, 0;
      readsTold, told := false, [];
    }

    /** What the store is due: everything received, in order, less what the reads cover. */
    ghost function Due(): seq<Event>
      requires cursor <= |received| && handoff <= |received|
      reads this
    {
      if live then Uncovered(known, received[..handoff]) + received[handoff..]
      else Uncovered(known, received[..cursor])
    }

    ghost predicate Consistent()
      reads this, store
    {
      && cursor <= |received| && handoff <= |received|
      && (buffer.Some? <==> !disposed && !live)
      && (buffer.Some? ==> buffer.value == received)
      && store.cells == CommitAll(base, delivered)
    }

    ghost predicate Valid()
      reads this, store
    {
      Consistent() && delivered == Due() && told == delivered
    }

    /** Nothing has been given to the store yet. */
    ghost predicate Waiting()
      reads this
    {
      !disposed && !live && cursor == 0 && known == map[]
    }

    /** What no notification changes. */
    twostate predicate Framed()
      reads this
    {
      && known == old(known) && base == old(base) && cursor == old(cursor)
      && live == old(live) && handoff == old(handoff)
      && old(received) <= received && old(delivered) <= delivered
      && (old(disposed) ==> disposed && received == old(received))
      && |acts| <= |old(acts)| && acts == old(acts)[|old(acts)| - |acts|..]
      && (old(readsTold) ==> readsTold)
    }

    /** The notifications since then have thrown, or they have not. */
    twostate predicate Threw(threw: bool)
      reads this
    {
      |acts| <= |old(acts)| && (threw <==> Throws(old(acts)[..|old(acts)| - |acts|]))
    }

    method DisposeSession()
      requires Consistent()
      modifies this`disposed, this`buffer
      ensures Consistent() && disposed
    {
      disposed, buffer := true, None;
    }

    /** The subscriber. */
    method Receive(e: Event) returns (threw: bool)
      requires Valid()
      modifies this, store
      ensures Valid() && Framed() && Threw(threw)
      ensures !old(disposed) ==> old(received) + [e] <= received
      ensures old(buffer.Some?) ==> acts == old(acts) && disposed == old(disposed) && store.cells == old(store.cells)
      decreases |acts|, 3
    {
      threw := false;
      if !disposed {
        received := received + [e];
      }
      if buffer.Some? {
        buffer := Some(buffer.value + [e]);
        assert received[..cursor] == old(received)[..cursor];
      } else {
        if !disposed {
          assert received[..handoff] == old(received)[..handoff];
          assert received[handoff..] == old(received)[handoff..] + [e];
        }
        threw := Deliver(e);
      }
    }

    /** Commits one event and tells the view. */
    method Deliver(e: Event) returns (threw: bool)
      requires Consistent() && delivered + (if disposed then [] else [e]) == Due() && told == delivered
      modifies this, store
      ensures Valid() && Framed() && Threw(threw)
      ensures !old(disposed) && old(acts) != [] ==> |acts| < |old(acts)|
      ensures old(acts) == [] ==> received == old(received) && disposed == old(disposed)
      decreases |acts|, 2
    {
      if disposed {
        return false;
      }
      Commit(e);
      threw := Notify(Some(e));
    }

    /** The view may emit further events, dispose the session, or throw. */
    method Notify(ghost e: Option<Event>) returns (threw: bool)
      requires Consistent() && delivered == Due()
      requires delivered == if e.Some? then told + [e.value] else told
      modifies this, store
      ensures Valid() && Framed() && Threw(threw) && (e.None? ==> readsTold)
      ensures old(acts) != [] ==> |acts| < |old(acts)|
      ensures old(acts) == [] ==> received == old(received) && disposed == old(disposed)
      decreases |acts|, 1
    {
      readsTold, told := readsTold || e.None?, delivered;
      threw := false;
      if acts != [] {
        threw := PerformNext();
      }
    }

    method PerformNext() returns (threw: bool)
      requires Valid() && acts != []
      modifies this, store
      ensures Valid() && Framed() && Threw(threw) && |acts| < |old(acts)|
      decreases |acts|, 0
    {
      ghost var before := acts;
      var todo := acts[0];
      acts := acts[1..];
      threw := Perform(todo);
      ThrowsCons(before, |before| - 1 - |acts|);
      assert before[1..][|before| - 1 - |acts|..] == before[|before| - |acts|..];
    }

    method Commit(e: Event)
      requires Consistent()
      modifies this`delivered, store
      ensures Consistent() && delivered == old(delivered) + [e]
    {
      Extended(known, base, delivered, e);
      delivered := delivered + [e];
      if e.Update? {
        var _ := store.Commit(e.resource, Loaded(e.revision, e.value));
      }
    }

    method Perform(todo: seq<Act>) returns (threw: bool)
      requires Valid()
      modifies this, store
      ensures Valid() && Framed()
      ensures |acts| <= |old(acts)|
      ensures threw <==> Throw in todo || Throws(old(acts)[..|old(acts)| - |acts|])
      decreases |acts|, 5
    {
      for n := 0 to |todo|
        invariant Valid() && Framed() && Threw(false) && Throw !in todo[..n]
      {
        threw := PerformOne(todo[n]);
        if threw {
          return;
        }
      }
      threw := false;
    }

    method PerformOne(act: Act) returns (threw: bool)
      requires Valid()
      modifies this, store
      ensures Valid() && Framed()
      ensures threw <==> act.Throw? || Throws(old(acts)[..|old(acts)| - |acts|])
      decreases |acts|, 4
    {
      threw := act.Throw?;
      match act {
        case Emit(e) => threw := Receive(e);
        case Dispose => DisposeSession();
        case Throw =>
      }
    }

    /** Replays the buffer in one FIFO drain -- events emitted during the drain join its end -- and goes
      * live. */
    method Drain() returns (threw: bool)
      requires Valid() && !live && cursor == 0
      modifies this, store
      ensures Valid() && known == old(known) && base == old(base) && old(received) <= received
      ensures live <==> !disposed && !threw
      ensures Threw(threw) && (old(readsTold) ==> readsTold)
      ensures old(disposed) ==> disposed
    {
      threw := false;
      while !disposed && !threw && cursor < |buffer.value|
        invariant Valid() && !live && known == old(known) && base == old(base) && old(received) <= received
        invariant old(disposed) ==> disposed
        invariant Threw(threw) && acts == old(acts)[|old(acts)| - |acts|..] && (old(readsTold) ==> readsTold)
        decreases |acts|, if disposed then 0 else 1, |received| - cursor
      {
        threw := Turn();
      }
      if !disposed && !threw {
        assert received[..cursor] == received && received[|received|..] == [];
        buffer, live, handoff := None, true, |received|;
      }
    }

    /** One turn of the drain. */
    method Turn() returns (threw: bool)
      requires Valid() && !live && !disposed && cursor < |received|
      modifies this, store
      ensures Valid() && !live && known == old(known) && base == old(base) && old(received) <= received
      ensures |acts| < |old(acts)| ||
        (acts == old(acts) && received == old(received) && disposed == old(disposed) && cursor == old(cursor) + 1)
      ensures Threw(threw) && acts == old(acts)[|old(acts)| - |acts|..] && (old(readsTold) ==> readsTold)
    {
      var e := buffer.value[cursor];
      assert received[..cursor + 1] == received[..cursor] + [e];
      Extended(known, base, received[..cursor], e);
      cursor := cursor + 1;
      threw := false;
      if !Covered(known, e) {
        threw := Deliver(e);
      }
    }

    /** Commits an outcome of the start itself. */
    method CommitBoot(r: Resource, action: Action)
      requires Valid() && Waiting()
      modifies this`base, store
      ensures Valid() && Waiting()
      ensures store.cells == old(store.cells)[r := Reduce(CellOf(old(store.cells), r), action).0]
    {
      var _ := store.Commit(r, action);
      base := store.cells;
      assert delivered == [];
    }

    /** Events that arrive while a read is awaited are buffered, and nothing else happens. */
    method Await(arrivals: seq<Event>)
      requires Valid() && Waiting()
      modifies this, store
      ensures Valid() && Waiting()
      ensures received == old(received) + arrivals && store.cells == old(store.cells) && acts == old(acts)
    {
      for n := 0 to |arrivals|
        invariant Valid() && Waiting()
        invariant received == old(received) + arrivals[..n] && store.cells == old(store.cells) && acts == old(acts)
      {
        buffer := Some(buffer.value + [arrivals[n]]);
        received := received + [arrivals[n]];
        assert arrivals[..n + 1] == arrivals[..n] + [arrivals[n]];
        assert received[..0] == [];
      }
      assert arrivals[..|arrivals|] == arrivals;
    }

    /** Every resource of the start is shown as loading, over the value that it has. */
    method LoadAll()
      requires Valid() && Waiting()
      modifies this`base, store
      ensures Valid() && Waiting()
      ensures forall r <- BOOT :: ShowsLoading(CellOf(store.cells, r), CellOf(old(store.cells), r))
      ensures forall r | r !in BOOT :: CellOf(store.cells, r) == CellOf(old(store.cells), r)
    {
      ghost var cells := store.cells;
      for n := 0 to |BOOT|
        invariant Valid() && Waiting()
        invariant forall r <- BOOT[..n] :: CellOf(store.cells, r) == MarkLoading(CellOf(cells, r)).0
        invariant forall r | r !in BOOT[..n] :: CellOf(store.cells, r) == CellOf(cells, r)
      {
        CommitBoot(BOOT[n], Loading);
      }
      assert BOOT[..|BOOT|] == BOOT;
    }

    method FailAll(problem: Problem)
      requires Valid() && Waiting()
      modifies this, store
      ensures Consistent() && disposed && delivered == [] && acts == old(acts)
      ensures forall r <- BOOT :: ShowsFailure(CellOf(store.cells, r), CellOf(old(store.cells), r), problem)
      ensures forall r | r !in BOOT :: CellOf(store.cells, r) == CellOf(old(store.cells), r)
    {
      for n := 0 to |BOOT|
        invariant Valid() && Waiting() && acts == old(acts)
        invariant forall i | 0 <= i < n ::
          ShowsFailure(CellOf(store.cells, BOOT[i]), CellOf(old(store.cells), BOOT[i]), problem)
        invariant forall r | r !in BOOT[..n] :: CellOf(store.cells, r) == CellOf(old(store.cells), r)
      {
        CommitBoot(BOOT[n], Failed(problem.message, problem.rpcError, None));
      }
      DisposeSession();
    }

    /** The reads that succeeded are loaded, the others reported, each with its own problem. */
    method ReadOneByOne(loaded: Reads, problems: Resource -> Problem)
      requires Valid() && Waiting()
      modifies this, store
      ensures Valid() && !live && cursor == 0 && !disposed && received == old(received) && acts == old(acts)
      ensures known.Keys == loaded.Keys * (set r <- BOOT) && Settled(known, store.cells) && base == store.cells
      ensures forall r <- known :: known[r] == loaded[r]
      ensures forall r <- BOOT | r !in loaded ::
        ShowsFailure(CellOf(store.cells, r), CellOf(old(store.cells), r), problems(r))
      ensures forall r | Empty(CellOf(old(store.cells), r)) :: Booted(known, r, CellOf(base, r))
    {
      ghost var cells := store.cells;
      for n := 0 to |BOOT|
        invariant Valid() && Waiting() && received == old(received) && acts == old(acts)
        invariant forall r <- BOOT[..n] :: CellOf(store.cells, r) == AfterRead(CellOf(cells, r), r, loaded, problems)
        invariant forall r | r !in BOOT[..n] :: CellOf(store.cells, r) == CellOf(cells, r)
        invariant forall r <- BOOT[..n] :: r in store.cells
      {
        var r := BOOT[n];
        CommitBoot(r, if r in loaded then Loaded(loaded[r].0, loaded[r].1)
                      else Failed(problems(r).message, problems(r).rpcError, None));
      }
      assert BOOT[..|BOOT|] == BOOT;
      known := map r | r in loaded && r in BOOT :: loaded[r];
      base := store.cells;
      ReadsSettle(cells, store.cells, loaded, problems, known);
    }

    method CommitWhole(s: Snapshot)
      requires Valid() && Waiting()
      modifies this`known, this`base, store
      ensures Valid() && !live && cursor == 0 && !disposed
      ensures known == ReadsOf(s) && Settled(known, store.cells) && base == store.cells
      ensures forall r | CellOf(old(store.cells), r).revision < 0 ::
        CellOf(base, r) == if r in known then Fresh(known[r].0, known[r].1) else CellOf(old(store.cells), r)
    {
      known := ReadsOf(s);
      SnapshotSettles(store.cells, s);
      var _ := store.CommitSnapshot(s);
      base := store.cells;
      assert received[..0] == [] && delivered == [];
    }

    /** Tells the view of the reads, and drains the buffer; a view that throws ends the start. */
    method Replay() returns (started: bool)
      requires Valid() && !live && cursor == 0
      modifies this, store
      ensures Valid() && known == old(known) && base == old(base) && old(received) <= received
      ensures readsTold && Threw(!started)
      ensures !started ==> disposed
      ensures started ==> (live <==> !disposed)
    {
      var threw := Notify(None);
      if !threw {
        threw := Drain();
      }
      if threw {
        DisposeSession();
      }
      started := !threw;
    }
  }

  /** Starts a session: `first` arrives while the snapshot is awaited, `second` during the single reads; the
    * view is told of the reads before the buffer is drained.  `awaited` is what the store shows while the
    * snapshot is awaited.
    *
    * A start that succeeds hands every received event over exactly once, in order, except for those the
    * reads cover, and tells the view of each; one that fails disposes the session.  It fails exactly if the
    * reads do, or if the view throws. */
  method StartBackend(session: BackendSession, first: seq<Event>, result: ReadResult, second: seq<Event>)
    returns (started: bool, ghost awaited: Cells)
    requires session.Valid() && session.Waiting() && session.received == []
    modifies session, session.store
    ensures forall r <- BOOT :: ShowsLoading(CellOf(awaited, r), CellOf(old(session.store.cells), r))
    ensures forall r | r !in BOOT :: CellOf(awaited, r) == CellOf(old(session.store.cells), r)
    ensures !result.Fatal? ==> |session.acts| <= |old(session.acts)|
    ensures started <==>
      !result.Fatal? && !Throws(old(session.acts)[..|old(session.acts)| - |session.acts|])
    ensures !started ==> session.disposed
    ensures result.Fatal? ==> session.delivered == [] && session.acts == old(session.acts)
    ensures result.Fatal? ==> forall r <- BOOT ::
      ShowsFailure(CellOf(session.store.cells, r), CellOf(old(session.store.cells), r), result.problem)
    ensures result.Fatal? ==> forall r | r !in BOOT ::
      CellOf(session.store.cells, r) == CellOf(old(session.store.cells), r)
    ensures !result.Fatal? ==>
      && session.Valid() && session.readsTold
      && Settled(session.known, session.base)
      && first + (if result.OneByOne? then second else []) <= session.received
    ensures started ==> (session.live <==> !session.disposed)
    ensures result.Whole? ==> session.known == ReadsOf(result.snapshot)
    ensures result.Whole? ==> forall r | CellOf(old(session.store.cells), r) == IDLE ::
      CellOf(session.base, r) ==
        if r in session.known then Fresh(session.known[r].0, session.known[r].1) else IDLE
    ensures !result.Fatal? ==> forall r | Empty(CellOf(old(session.store.cells), r)) ::
      Booted(session.known, r, CellOf(session.base, r))
    ensures result.OneByOne? ==>
      && session.known.Keys == result.known.Keys * (set r <- BOOT)
      && (forall r <- session.known :: session.known[r] == result.known[r])
      && forall r <- BOOT | r !in result.known ::
           ShowsFailure(CellOf(session.base, r), CellOf(old(session.store.cells), r), result.problems(r))
  {
    session.LoadAll();
    awaited := session.store.cells;
    session.Await(first);
    match result {
      case Fatal(problem) =>
        session.FailAll(problem);
        return false, awaited;
      case OneByOne(loaded, problems) =>
        session.Await(second);
        session.ReadOneByOne(loaded, problems);
      case Whole(s) =>
        session.CommitWhole(s);
    }
    started := session.Replay();
  }

  lemma {:induction false} CommitInTwo(cells: Cells, first: seq<Event>, rest: seq<Event>)
    ensures CommitAll(cells, first + rest) == CommitAll(CommitAll(cells, first), rest)
  {
    if rest == [] {
      assert first + rest == first;
    } else {
      assert (first + rest)[..|first + rest| - 1] == first + rest[..|rest| - 1];
      CommitInTwo(cells, first, rest[..|rest| - 1]);
    }
  }

  /** A live session has brought the store to the state that committing every received event would have. */
  lemma HandoffIsSeamless(session: BackendSession)
    requires session.Valid() && session.live
    requires Settled(session.known, session.base) && Agrees(session.known, session.received)
    ensures session.store.cells == CommitAll(session.base, session.received)
  {
    var first, rest := session.received[..session.handoff], session.received[session.handoff..];
    assert session.received == first + rest;
    DroppingIsHarmless(session.known, session.base, first);
    CommitInTwo(session.base, Uncovered(session.known, first), rest);
    CommitInTwo(session.base, first, rest);
  }

  /** Exactly the covered events are dropped, every other event is kept as often as it came. */
  lemma {:induction false} UncoveredIsTheRest(known: Reads, events: seq<Event>)
    ensures |Uncovered(known, events)| <= |events|
    ensures multiset(Uncovered(known, events)) <= multiset(events)
    ensures forall e ::
      multiset(Uncovered(known, events))[e] ==
      if e.Update? && e.resource in known && e.revision <= known[e.resource].0 then 0 else multiset(events)[e]
  {
    if events == [] {
    } else {
      var n := |events| - 1;
      assert events == events[..n] + [events[n]];
      UncoveredIsTheRest(known, events[..n]);
    }
  }
}
