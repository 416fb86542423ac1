/** From the backend's caches to the client's cells: the numbering of publications, the start of a session
  * and the fence of the cells together.
  */
module Replication {
  import opened Wrappers
  import opened Reducer
  import opened Publication
  import opened Convergence
  import opened BackendStart

  /** The events of one resource, as actions on its cell. */
  function Loads(events: seq<Event>, r: Resource): seq<Action> {
    if events == [] then
      []
    else
      var e := events[|events| - 1];
      Loads(events[..|events| - 1], r) + if e.Update? && e.resource == r then [Loaded(e.revision, e.value)] else []
  }

  lemma {:induction false} LoadsAreUpdates(events: seq<Event>, r: Resource)
    ensures forall revision: nat, value ::
      Loaded(revision, value) in Loads(events, r) <==> Update(r, revision, value) in events
    ensures forall a <- Loads(events, r) :: a.Loaded?
  {
    if events == [] {
    } else {
      assert events == events[..|events| - 1] + [events[|events| - 1]];
      LoadsAreUpdates(events[..|events| - 1], r);
    }
  }

  /** A cell of the store goes through the events of its own resource, and no others. */
  lemma {:induction false} CellByCell(cells: Cells, events: seq<Event>, r: Resource)
    ensures CellOf(CommitAll(cells, events), r) == Replay(CellOf(cells, r), Loads(events, r))
  {
    if events == [] {
    } else {
      var before, e := events[..|events| - 1], events[|events| - 1];
      CellByCell(cells, before, r);
      if e.Update? && e.resource == r {
        var a := Loaded(e.revision, e.value);
        assert (Loads(before, r) + [a])[..|Loads(before, r)|] == Loads(before, r);
      } else {
        assert Loads(events, r) == Loads(before, r);
      }
    }
  }

  lemma {:induction false} ReplayInTwo(cell: Cell, first: seq<Action>, rest: seq<Action>)
    ensures Replay(cell, first + rest) == Replay(Replay(cell, first), rest)
  {
    if rest == [] {
      assert first + rest == first;
    } else {
      assert (first + rest)[..|first + rest| - 1] == first + rest[..|rest| - 1];
      ReplayInTwo(cell, first, rest[..|rest| - 1]);
    }
  }

  /** What a session has loaded into `r`: what the start read, and then what was received. */
  function History(known: Reads, received: seq<Event>, r: Resource): seq<Action> {
    (if r in known then [Loaded(known[r].0, known[r].1)] else []) + Loads(received, r)
  }

  /** The start has read each of these resources when the backend had made so many publications: of a
    * snapshot all of them at once, of single reads each at its own time. */
  ghost predicate ReadAfter(known: Reads, published: PublishedResources, at: map<Resource, nat>)
    reads published
  {
    forall r <- known ::
      && r in at && at[r] <= |published.history|
      && Latest(published.history[..at[r]], r, Seed(published.seed, r)) == Some(Revisioned(known[r].0, known[r].1))
  }

  /** The events are messages of the backend. */
  ghost predicate Sent(events: seq<Event>, history: seq<Message>) {
    forall e <- events | e.Update? :: Message(Cached(e.resource), e.revision, Some(e.value)) in history
  }

  lemma AllFromBackend(published: PublishedResources, known: Reads, received: seq<Event>,
                       at: map<Resource, nat>, r: Resource)
    requires published.Valid() && ReadAfter(known, published, at) && Sent(received, published.history)
    ensures FromBackend(published.history, published.seed, r, History(known, received, r))
  {
    LoadsAreUpdates(received, r);
    if r in known {
      ReadsArePublished(published.history, at[r], published.seed, r);
    }
    forall a | a in Loads(received, r) ensures Published(published.history, published.seed, r, a.revision, a.value) {
      assert Update(r, a.revision, a.value) in received;
    }
  }

  /** A revision stands for one value, so dropping what the start has read is harmless. */
  lemma BackendAgrees(published: PublishedResources, known: Reads, received: seq<Event>,
                      at: map<Resource, nat>)
    requires published.Valid() && ReadAfter(known, published, at) && Sent(received, published.history)
    requires forall r :: Unambiguous(published.history, r)
    ensures Agrees(known, received)
  {
    forall e | e in received && e.Update? && e.resource in known && e.revision == known[e.resource].0
      ensures e.value == known[e.resource].1
    {
      ReadsArePublished(published.history, at[e.resource], published.seed, e.resource);
      RevisionDetermines(published.history, published.seed, e.resource, e.revision, e.value, known[e.resource].1);
    }
  }

  function ReadsOfResult(result: ReadResult): Reads {
    match result
    case Whole(s) => ReadsOf(s)
    case OneByOne(known, _) => known
    case Fatal(_) => map[]
  }

  /** A start whose reads come from the backend has brought every empty cell to what was read of it. */
  method StartFromReads(ghost published: PublishedResources, ghost at: map<Resource, nat>,
                        session: BackendSession, first: seq<Event>, result: ReadResult, second: seq<Event>)
    returns (started: bool)
    requires session.Valid() && session.Waiting() && session.received == []
    requires !result.Fatal? && ReadAfter(ReadsOfResult(result), published, at)
    modifies session, session.store
    ensures session.Valid() && first <= session.received && Settled(session.known, session.base)
    ensures session.known.Keys == ReadsOfResult(result).Keys * (set r <- BOOT)
    ensures ReadAfter(session.known, published, at)
    ensures forall r | Empty(CellOf(old(session.store.cells), r)) ::
      Booted(session.known, r, CellOf(session.base, r))
    ensures started ==> (session.live <==> !session.disposed)
    ensures old(session.acts) == [] ==> started
  {
    if result.Whole? {
      PartsAreReads(result.snapshot);
    }
    ghost var awaited;
    started, awaited := StartBackend(session, first, result, second);
  }

  /** A start that fetches its snapshot has read what the backend had published by then. */
  method StartFromBackend(published: PublishedResources, session: BackendSession, first: seq<Event>)
    returns (started: bool, ghost at: map<Resource, nat>)
    requires published.Valid() && session.Valid() && session.Waiting() && session.received == []
    modifies session, session.store
    ensures session.Valid() && first <= session.received && Settled(session.known, session.base)
    ensures session.known.Keys == set r <- BOOT
    ensures at == (map r | r in BOOT :: |published.history|) && ReadAfter(session.known, published, at)
    ensures forall r | Empty(CellOf(old(session.store.cells), r)) ::
      Booted(session.known, r, CellOf(session.base, r))
    ensures started ==> (session.live <==> !session.disposed)
    ensures old(session.acts) == [] ==> started
  {
    var s := FetchSnapshot(published);
    PartsAreReads(s.value);
    at := map r | r in BOOT :: |published.history|;
    assert published.history[..|published.history|] == published.history;
    started := StartFromReads(published, at, session, first, Whole(s.value), []);
  }

  lemma PartsAreReads(s: Snapshot)
    ensures forall r :: r in ReadsOf(s) <==> r in BOOT
    ensures forall r <- ReadsOf(s) :: (r, ReadsOf(s)[r]) in Parts(s)
  {
    assert Parts(s)[0] in Parts(s) && Parts(s)[1] in Parts(s) && Parts(s)[2] in Parts(s) && Parts(s)[3] in Parts(s);
    assert BOOT[0] in BOOT && BOOT[1] in BOOT && BOOT[2] in BOOT && BOOT[3] in BOOT;
  }

  /** Loads make no difference between empty cells. */
  lemma {:induction false} LoadsFillEmpty(cell: Cell, actions: seq<Action>)
    requires Empty(cell) && actions != [] && forall a <- actions :: a.Loaded?
    ensures Replay(cell, actions) == Replay(IDLE, actions)
  {
    if |actions| == 1 {
      assert actions[..0] == [];
    } else {
      LoadsFillEmpty(cell, actions[..|actions| - 1]);
    }
  }

  /** End to end: a session that started from reads of the backend, whole or one by one, and has received
    * what the backend sent in whatever order and however often, holds the cache of the backend for every
    * resource whose latest publication it has read or received.  Reads that failed do no harm. */
  lemma ReplicaEqualsCache(published: PublishedResources, session: BackendSession, at: map<Resource, nat>, r: Resource)
    requires published.Valid() && session.Valid() && session.live
    requires forall q :: Unambiguous(published.history, q)
    requires ReadAfter(session.known, published, at) && Sent(session.received, published.history)
    requires Settled(session.known, session.base) && Booted(session.known, r, CellOf(session.base, r))
    requires r != TransferJobs && published.Cache(r).Some?
    requires var x := published.Cache(r).value;
      Loaded(x.revision, x.value) in History(session.known, session.received, r)
    ensures var x, c := published.Cache(r).value, CellOf(session.store.cells, r);
      c.revision == x.revision && c.value == c.lastGood == Some(x.value)
  {
    BackendAgrees(published, session.known, session.received, at);
    HandoffIsSeamless(session);
    CellByCell(session.base, session.received, r);
    FromBase(CellOf(session.base, r), session.known, session.received, r);
    AllFromBackend(published, session.known, session.received, at, r);
    Converges(published.history, published.seed, r, History(session.known, session.received, r));
  }

  lemma FromBase(cell: Cell, known: Reads, received: seq<Event>, r: Resource)
    requires Booted(known, r, cell) && History(known, received, r) != []
    ensures Replay(cell, Loads(received, r)) == Replay(IDLE, History(known, received, r))
  {
    if r in known {
      var read := [Loaded(known[r].0, known[r].1)];
      assert read[..0] == [] && Replay(IDLE, read) == cell;
      ReplayInTwo(IDLE, read, Loads(received, r));
    } else {
      LoadsAreUpdates(received, r);
      LoadsFillEmpty(cell, Loads(received, r));
      assert History(known, received, r) == Loads(received, r);
    }
  }
}
