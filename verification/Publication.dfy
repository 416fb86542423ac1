/** The published resources of the backend: values and revisions change together under one lock. */
module Publication {
  import opened Wrappers
  import opened Reducer

  /** Revisions are 64-bit and saturate. */
  const MAX_REVISION: nat := 0xFFFF_FFFF_FFFF_FFFF

  datatype Revisioned = Revisioned(revision: nat, value: Value)

  datatype Topic = Cached(resource: Resource) | Pairing

  /** What went out under a revision; a reserved revision carries no value. */
  datatype Message = Message(topic: Topic, revision: nat, content: Option<Value>)

  predicate IsBase(r: Resource) {
    r in {Devices, Library, Transfers, Storage}
  }

  /** The revision of the `n`th allocation. */
  function RevisionAfter(n: nat): nat {
    if n <= MAX_REVISION then n else MAX_REVISION
  }

  /** What was last published of `r`, or else what it was seeded with. */
  ghost function Latest(history: seq<Message>, r: Resource, seed: Option<Value>): Option<Revisioned> {
    if history == [] then
      if seed.Some? then Some(Revisioned(0, seed.value)) else None
    else
      var m := history[|history| - 1];
      if m.topic == Cached(r) && m.content.Some? then Some(Revisioned(m.revision, m.content.value))
      else Latest(history[..|history| - 1], r, seed)
  }

  /** Revisions are allocated one by one. */
  ghost predicate Numbered(history: seq<Message>) {
    forall i | 0 <= i < |history| :: history[i].revision == RevisionAfter(i + 1)
  }

  /** A publication is fresh -- larger than every one before it -- until the counter saturates, and from
    * then on never again. */
  lemma FreshUntilSaturated(history: seq<Message>, i: nat, j: nat)
    requires Numbered(history) && i < j < |history|
    ensures history[i].revision < history[j].revision <==> i + 1 < MAX_REVISION
    ensures history[i].revision <= history[j].revision
  {
  }

  lemma {:induction false} LatestWasPublished(history: seq<Message>, r: Resource, seed: Option<Value>)
    requires Numbered(history)
    ensures Latest(history, r, seed).Some? ==>
      var x := Latest(history, r, seed).value;
      && x.revision <= RevisionAfter(|history|)
      && ((seed == Some(x.value) && x.revision == 0) || Message(Cached(r), x.revision, Some(x.value)) in history)
    ensures forall m <- history | m.topic == Cached(r) && m.content.Some? ::
      Latest(history, r, seed).Some? && m.revision <= Latest(history, r, seed).value.revision
  {
    if history == [] {
    } else {
      var n := |history| - 1;
      var m := history[n];
      assert history == history[..n] + [m];
      LatestWasPublished(history[..n], r, seed);
      forall m' <- history[..n] ensures m'.revision <= m.revision {
        var i :| 0 <= i < n && history[i] == m';
      }
    }
  }

  /** The value a resource starts with, at revision 0. */
  function Seed(s: Snapshot, r: Resource): Option<Value> {
    match r
    case Devices => Some(s.devices.1)
    case Library => Some(s.library.1)
    case Transfers => Some(s.transfers.1)
    case Storage => Some(s.storage.1)
    case _ => None
  }

  /** No value of `r` has been published yet. */
  ghost predicate Unpublished(history: seq<Message>, r: Resource) {
    forall m <- history :: m.topic == Cached(r) ==> m.content.None?
  }

  /** Until a resource is published for the first time, it is what it was seeded with. */
  lemma {:induction false} LatestIsSeed(history: seq<Message>, r: Resource, seed: Value)
    requires Unpublished(history, r)
    ensures Latest(history, r, Some(seed)) == Some(Revisioned(0, seed))
  {
    if history == [] {
    } else {
      var n := |history| - 1;
      assert history == history[..n] + [history[n]];
      LatestIsSeed(history[..n], r, seed);
    }
  }

  lemma Appended(history: seq<Message>, m: Message)
    requires Numbered(history) && m.revision == RevisionAfter(|history| + 1)
    ensures Numbered(history + [m])
    ensures forall r: Resource, seed: Option<Value> ::
      Latest(history + [m], r, seed) ==
      (if m.topic == Cached(r) && m.content.Some? then Some(Revisioned(m.revision, m.content.value))
       else Latest(history, r, seed))
  {
  }

  class PublishedResources {
    var globalRevision: nat
    var devices: Revisioned
    var library: Revisioned
    var transfers: Revisioned
    var storage: Revisioned
    var sessions: map<string, Revisioned>
    var sessionRevisions: map<string, nat>
    var auxiliaryRevisions: map<Topic, nat>

    /** Everything ever allocated, and what the four cached resources were seeded with. */
    ghost var history: seq<Message>
    ghost var seed: Snapshot

    function Cache(r: Resource): Option<Revisioned>
      reads this
    {
      match r
      case Devices => Some(devices)
      case Library => Some(library)
      case Transfers => Some(transfers)
      case Storage => Some(storage)
      case Sessions(d) => if d in sessions then Some(sessions[d]) else None
      case TransferJobs => None
    }

    ghost predicate Valid()
      reads this
    {
      && globalRevision == RevisionAfter(|history|)
      && Numbered(history)
      && (forall r: Resource | r != TransferJobs :: Cache(r) == Latest(history, r, Seed(seed, r)))
    }

    constructor Seeded(s: Snapshot)
      ensures Valid() && history == [] && seed == s
      ensures devices == Revisioned(0, s.devices.1) && library == Revisioned(0, s.library.1)
      ensures transfers == Revisioned(0, s.transfers.1) && storage == Revisioned(0, s.storage.1)
    {
      globalRevision := 0;
      devices := Revisioned(0, s.devices.1);
      library := Revisioned(0, s.library.1);
      transfers := Revisioned(0, s.transfers.1);
      storage := Revisioned(0, s.storage.1);
      sessions, sessionRevisions, auxiliaryRevisions := map[], map[], map[];
      history, seed := [], s;
    }

    method AllocateResource(topic: Topic) returns (revision: nat)
      modifies this`globalRevision, this`auxiliaryRevisions
      ensures revision == globalRevision
      ensures globalRevision == if old(globalRevision) < MAX_REVISION then old(globalRevision) + 1 else MAX_REVISION
      ensures auxiliaryRevisions == old(auxiliaryRevisions)[topic := revision]
    {
      globalRevision := if globalRevision < MAX_REVISION then globalRevision + 1 else MAX_REVISION;
      revision := globalRevision;
      auxiliaryRevisions := auxiliaryRevisions[topic := revision];
    }

    method AllocateSession(deviceId: string) returns (revision: nat)
      modifies this`globalRevision, this`sessionRevisions
      ensures revision == globalRevision
      ensures globalRevision == if old(globalRevision) < MAX_REVISION then old(globalRevision) + 1 else MAX_REVISION
      ensures sessionRevisions == old(sessionRevisions)[deviceId := revision]
    {
      globalRevision := if globalRevision < MAX_REVISION then globalRevision + 1 else MAX_REVISION;
      revision := globalRevision;
      sessionRevisions := sessionRevisions[deviceId := revision];
    }

    /** Publishes one of the four cached resources; the message is delivered after the lock is given up. */
    method Publish(r: Resource, value: Value) returns (m: Message)
      requires Valid() && IsBase(r)
      modifies this
      ensures Valid() && seed == old(seed)
      ensures m == Message(Cached(r), globalRevision, Some(value)) && history == old(history) + [m]
      ensures Cache(r) == Some(Revisioned(m.revision, value))
      ensures devices == if r == Devices then Revisioned(m.revision, value) else old(devices)
      ensures library == if r == Library then Revisioned(m.revision, value) else old(library)
      ensures transfers == if r == Transfers then Revisioned(m.revision, value) else old(transfers)
      ensures storage == if r == Storage then Revisioned(m.revision, value) else old(storage)
      ensures sessions == old(sessions)
      ensures auxiliaryRevisions == old(auxiliaryRevisions)[m.topic := m.revision]
      ensures sessionRevisions == old(sessionRevisions)
      ensures forall q: Resource | q != r :: Cache(q) == old(Cache(q))
      ensures m.revision > old(globalRevision) <==> old(globalRevision) < MAX_REVISION
    {
      var revision := AllocateResource(Cached(r));
      match r {
        case Devices => devices := Revisioned(revision, value);
        case Library => library := Revisioned(revision, value);
        case Transfers => transfers := Revisioned(revision, value);
        case Storage => storage := Revisioned(revision, value);
        case _ => assert false;
      }
      m := Message(Cached(r), revision, Some(value));
      Appended(history, m);
      history := history + [m];
    }

    method PublishSessions(deviceId: string, value: Value) returns (m: Message)
      requires Valid()
      modifies this
      ensures Valid() && seed == old(seed)
      ensures m == Message(Cached(Sessions(deviceId)), globalRevision, Some(value)) && history == old(history) + [m]
      ensures Cache(Sessions(deviceId)) == Some(Revisioned(m.revision, value))
      ensures sessionRevisions == old(sessionRevisions)[deviceId := m.revision]
      ensures auxiliaryRevisions == old(auxiliaryRevisions)
      ensures forall q: Resource | q != Sessions(deviceId) :: Cache(q) == old(Cache(q))
      ensures m.revision > old(globalRevision) <==> old(globalRevision) < MAX_REVISION
    {
      var revision := AllocateSession(deviceId);
      sessions := sessions[deviceId := Revisioned(revision, value)];
      m := Message(Cached(Sessions(deviceId)), revision, Some(value));
      Appended(history, m);
      history := history + [m];
    }

    /** Reserves a session revision for a mutation whose refresh failed: nothing is cached or sent. */
    method AdvanceSessionRevision(deviceId: string) returns (revision: nat)
      requires Valid()
      modifies this
      ensures Valid() && seed == old(seed)
      ensures history == old(history) + [Message(Cached(Sessions(deviceId)), revision, None)]
      ensures revision == globalRevision && sessionRevisions == old(sessionRevisions)[deviceId := revision]
      ensures forall q: Resource :: Cache(q) == old(Cache(q))
    {
      revision := AllocateSession(deviceId);
      Appended(history, Message(Cached(Sessions(deviceId)), revision, None));
      history := history + [Message(Cached(Sessions(deviceId)), revision, None)];
    }

    /** Transfer-job and pairing events take a revision, but are not cached. */
    method Emit(topic: Topic, value: Value) returns (m: Message)
      requires Valid() && (topic == Pairing || topic == Cached(TransferJobs))
      modifies this
      ensures Valid() && seed == old(seed)
      ensures m == Message(topic, globalRevision, Some(value)) && history == old(history) + [m]
      ensures forall q: Resource :: Cache(q) == old(Cache(q))
    {
      var revision := AllocateResource(topic);
      m := Message(topic, revision, Some(value));
      Appended(history, m);
      history := history + [m];
    }

    /** Until a resource is published for the first time, its cache holds what it was seeded with. */
    lemma SeedsStand()
      requires Valid()
      ensures Unpublished(history, Devices) ==> devices == Revisioned(0, seed.devices.1)
      ensures Unpublished(history, Library) ==> library == Revisioned(0, seed.library.1)
      ensures Unpublished(history, Transfers) ==> transfers == Revisioned(0, seed.transfers.1)
      ensures Unpublished(history, Storage) ==> storage == Revisioned(0, seed.storage.1)
    {
      forall r | r in {Devices, Library, Transfers, Storage} && Unpublished(history, r)
        ensures Cache(r) == Some(Revisioned(0, Seed(seed, r).value))
      {
        LatestIsSeed(history, r, Seed(seed, r).value);
      }
      assert Cache(Devices).Some? && Cache(Library).Some? && Cache(Transfers).Some? && Cache(Storage).Some?;
    }

    /** An atomic view: every part is the latest of its resource, and none is newer than the whole. */
    method ReadSnapshot() returns (revision: nat, s: Snapshot)
      requires Valid()
      ensures revision == globalRevision
      ensures forall p <- Parts(s) ::
        p.1.0 <= revision && Latest(history, p.0, Seed(seed, p.0)) == Some(Revisioned(p.1.0, p.1.1))
      ensures s.devices == (devices.revision, devices.value) && s.library == (library.revision, library.value)
      ensures s.transfers == (transfers.revision, transfers.value) && s.storage == (storage.revision, storage.value)
      ensures Unpublished(history, Devices) ==> s.devices == (0, seed.devices.1)
      ensures Unpublished(history, Library) ==> s.library == (0, seed.library.1)
      ensures Unpublished(history, Transfers) ==> s.transfers == (0, seed.transfers.1)
      ensures Unpublished(history, Storage) ==> s.storage == (0, seed.storage.1)
    {
      SeedsStand();
      revision := globalRevision;
      s := Snapshot((devices.revision, devices.value), (library.revision, library.value),
                    (transfers.revision, transfers.value), (storage.revision, storage.value));
      assert Cache(Devices).Some? && Cache(Library).Some? && Cache(Transfers).Some? && Cache(Storage).Some?;
      LatestWasPublished(history, Devices, Seed(seed, Devices));
      LatestWasPublished(history, Library, Seed(seed, Library));
      LatestWasPublished(history, Transfers, Seed(seed, Transfers));
      LatestWasPublished(history, Storage, Seed(seed, Storage));
    }
  }

  /** The transport refuses a snapshot with a part newer than the whole. */
  function DecodeSnapshot(revision: nat, s: Snapshot): Option<Snapshot> {
    if s.devices.0 > revision || s.library.0 > revision || s.transfers.0 > revision || s.storage.0 > revision then None
    else Some(s)
  }

  /** A snapshot on its way to the client: the check of the transport never refuses one. */
  method FetchSnapshot(published: PublishedResources) returns (s: Option<Snapshot>)
    requires published.Valid()
    ensures s.Some?
    ensures forall p <- Parts(s.value) ::
      Latest(published.history, p.0, Seed(published.seed, p.0)) == Some(Revisioned(p.1.0, p.1.1))
    ensures s.value.devices == (published.devices.revision, published.devices.value)
    ensures s.value.library == (published.library.revision, published.library.value)
    ensures s.value.transfers == (published.transfers.revision, published.transfers.value)
    ensures s.value.storage == (published.storage.revision, published.storage.value)
    ensures Unpublished(published.history, Devices) ==> s.value.devices == (0, published.seed.devices.1)
    ensures Unpublished(published.history, Library) ==> s.value.library == (0, published.seed.library.1)
    ensures Unpublished(published.history, Transfers) ==> s.value.transfers == (0, published.seed.transfers.1)
    ensures Unpublished(published.history, Storage) ==> s.value.storage == (0, published.seed.storage.1)
  {
    var revision, read := published.ReadSnapshot();
    assert Parts(read)[0] in Parts(read) && Parts(read)[1] in Parts(read);
    assert Parts(read)[2] in Parts(read) && Parts(read)[3] in Parts(read);
    s := DecodeSnapshot(revision, read);
  }

  /** What the check is for: parts that were read after a publication do not go with a revision that was read
    * before it, as long as the counter has not saturated. */
  method TornSnapshot(published: PublishedResources, r: Resource, value: Value) returns (s: Option<Snapshot>)
    requires published.Valid() && IsBase(r)
    modifies published
    ensures s.None? <==> old(published.globalRevision) < MAX_REVISION
  {
    var before, _ := published.ReadSnapshot();
    var m := published.Publish(r, value);
    var _, parts := published.ReadSnapshot();
    assert Parts(parts)[0] in Parts(parts) && Parts(parts)[1] in Parts(parts);
    assert Parts(parts)[2] in Parts(parts) && Parts(parts)[3] in Parts(parts);
    s := DecodeSnapshot(before, parts);
  }
}
