/** Publishing media projections: a delta replaces a slot only with a newer version of its source, and
  * everything accepted from one delta shares one revision.
  */
module MediaPublication {
  import opened Wrappers

  const MAX_REVISION: nat := 0xFFFF_FFFF_FFFF_FFFF

  datatype Resource = Scan | Imports | Derivations | Pipelines | Library

  const RESOURCES: seq<Resource> := [Scan, Imports, Derivations, Pipelines, Library]

  type JobId = string

  /** A complete projection; `jobs` are the jobs it shows. */
  datatype Value = Value(jobs: set<JobId>, text: string)

  datatype Observed = Observed(sourceVersion: nat, value: Value)

  /** The projections a delta carries; a missing one is untouched. */
  type Delta = map<Resource, Observed>

  datatype Slot = Slot(observed: Observed, revision: nat)

  type Slots = map<Resource, Slot>

  ghost predicate Total(slots: Slots) {
    forall r: Resource :: r in slots
  }

  /* ------------------------------ merging ------------------------------ */

  function MergeObserved(target: Option<Observed>, incoming: Option<Observed>): Option<Observed> {
    if incoming.None? then target
    else if target.None? || incoming.value.sourceVersion > target.value.sourceVersion then incoming
    else target
  }

  function Get(d: Delta, r: Resource): Option<Observed> {
    if r in d then Some(d[r]) else None
  }

  function Merge(a: Delta, b: Delta): (d: Delta)
    ensures forall r :: Get(d, r) == MergeObserved(Get(a, r), Get(b, r))
  {
    map r | r in a.Keys + b.Keys :: MergeObserved(Get(a, r), Get(b, r)).value
  }

  function MergeAll(deltas: seq<Delta>): Delta {
    if deltas == [] then map[] else Merge(MergeAll(deltas[..|deltas| - 1]), deltas[|deltas| - 1])
  }

  /** A delta under construction. */
  class ProjectionDelta {
    var observed: Delta

    constructor ()
      ensures observed == map[]
    {
      observed := map[];
    }

    /** Takes over what is newer than what is there; a tie keeps what is there. */
    method MergeIn(other: Delta)
      modifies this
      ensures observed == Merge(old(observed), other)
      ensures forall r ::
        Get(observed, r) ==
        if r in other && (r !in old(observed) || other[r].sourceVersion > old(observed)[r].sourceVersion)
        then Some(other[r]) else Get(old(observed), r)
    {
      for n := 0 to |RESOURCES|
        invariant forall r :: Get(observed, r) == if r in RESOURCES[..n] then Get(Merge(old(observed), other), r)
          else Get(old(observed), r)
      {
        var r := RESOURCES[n];
        assert RESOURCES[..n + 1] == RESOURCES[..n] + [r];
        if r in other && (r !in observed || other[r].sourceVersion > observed[r].sourceVersion) {
          observed := observed[r := other[r]];
        }
      }
      AllResources();
      assert RESOURCES[..|RESOURCES|] == RESOURCES;
      SameDelta(observed, Merge(old(observed), other));
    }
  }

  lemma AllResources()
    ensures forall r: Resource :: r in RESOURCES
  {
    forall r: Resource ensures r in RESOURCES {
      assert RESOURCES[0] == Scan && RESOURCES[1] == Imports && RESOURCES[2] == Derivations && RESOURCES[3] == Pipelines
             && RESOURCES[4] == Library;
      assert r.Scan? || r.Imports? || r.Derivations? || r.Pipelines? || r.Library?;
    }
  }

  lemma SameDelta(a: Delta, b: Delta)
    requires forall r :: Get(a, r) == Get(b, r)
    ensures a == b
  {
    forall r ensures r in a <==> r in b {
      assert Get(a, r) == Get(b, r);
    }
    forall r | r in a ensures a[r] == b[r] {
      assert Get(a, r) == Get(b, r);
    }
  }

  /* ------------------------------ publishing ------------------------------ */

  predicate Accepts(slots: Slots, d: Delta, r: Resource) {
    r in d && r in slots && d[r].sourceVersion > slots[r].observed.sourceVersion
  }

  function Published(slots: Slots, d: Delta, revision: nat): Slots {
    map r | r in slots :: if Accepts(slots, d, r) then Slot(d[r], revision) else slots[r]
  }

  /** The resources of `rs` that a delta changes, in order. */
  function AcceptedOf(slots: Slots, d: Delta, rs: seq<Resource>): seq<Resource> {
    if rs == [] then []
    else AcceptedOf(slots, d, rs[..|rs| - 1]) + if Accepts(slots, d, rs[|rs| - 1]) then [rs[|rs| - 1]] else []
  }

  lemma {:induction false} AcceptedAreThose(slots: Slots, d: Delta, rs: seq<Resource>)
    ensures forall r :: r in AcceptedOf(slots, d, rs) <==> r in rs && Accepts(slots, d, r)
    ensures (forall r <- rs :: !Accepts(slots, d, r)) ==> AcceptedOf(slots, d, rs) == []
  {
    if rs == [] {
    } else {
      assert rs == rs[..|rs| - 1] + [rs[|rs| - 1]];
      AcceptedAreThose(slots, d, rs[..|rs| - 1]);
    }
  }

  /** The order in which resources are announced. */
  function Rank(r: Resource): nat {
    match r
    case Scan => 0
    case Imports => 1
    case Derivations => 2
    case Pipelines => 3
    case Library => 4
  }

  lemma {:induction false} InRank(slots: Slots, d: Delta, n: nat)
    requires n <= |RESOURCES|
    ensures var events := AcceptedOf(slots, d, RESOURCES[..n]);
      && (forall r <- events :: Rank(r) < n)
      && forall i, j | 0 <= i < j < |events| :: Rank(events[i]) < Rank(events[j])
  {
    if n > 0 {
      InRank(slots, d, n - 1);
      assert RESOURCES[..n][..n - 1] == RESOURCES[..n - 1];
      var before := AcceptedOf(slots, d, RESOURCES[..n - 1]);
      assert forall i | 0 <= i < |before| :: before[i] in before;
      assert Rank(RESOURCES[n - 1]) == n - 1;
    }
  }

  /** What a delta announces: each resource it has a newer version of, in order. */
  lemma Announced(slots: Slots, d: Delta)
    requires Total(slots)
    ensures var events := AcceptedOf(slots, d, RESOURCES);
      && (forall r :: r in events <==> r in d && d[r].sourceVersion > slots[r].observed.sourceVersion)
      && (forall i, j | 0 <= i < j < |events| :: Rank(events[i]) < Rank(events[j]))
      && (events == [] <==> forall r <- RESOURCES :: !Accepts(slots, d, r))
  {
    AcceptedAreThose(slots, d, RESOURCES);
    AllResources();
    InRank(slots, d, |RESOURCES|);
    assert RESOURCES[..|RESOURCES|] == RESOURCES;
    var events := AcceptedOf(slots, d, RESOURCES);
    if events != [] {
      assert events[0] in events;
    }
  }

  /** What the slots show, whatever the revisions. */
  ghost predicate SameContent(a: Slots, b: Slots) {
    a.Keys == b.Keys && forall r <- a :: a[r].observed == b[r].observed
  }

  /** The slots after publishing deltas one after another, each under a revision of its own. */
  function PublishedInTurn(slots: Slots, deltas: seq<Delta>, revision: nat): (shown: Slots)
    ensures shown.Keys == slots.Keys
  {
    if deltas == [] then slots
    else Published(PublishedInTurn(slots, deltas[..|deltas| - 1], revision), deltas[|deltas| - 1], revision + |deltas|)
  }

  /** Publishing a merged delta shows the same as publishing its parts in turn, ties included. */
  lemma MergeThenPublish(slots: Slots, a: Delta, b: Delta, n: nat, m: nat, k: nat)
    ensures SameContent(Published(slots, Merge(a, b), k), Published(Published(slots, a, n), b, m))
  {
  }

  lemma {:induction false} MergeAllThenPublish(slots: Slots, deltas: seq<Delta>, n: nat, k: nat)
    ensures SameContent(Published(slots, MergeAll(deltas), k), PublishedInTurn(slots, deltas, n))
  {
    if deltas == [] {
    } else {
      var before, last := deltas[..|deltas| - 1], deltas[|deltas| - 1];
      MergeAllThenPublish(slots, before, n, k);
      MergeThenPublish(slots, MergeAll(before), last, k, n + |deltas|, k);
      var one, other := Published(slots, MergeAll(before), k), PublishedInTurn(slots, before, n);
      assert SameContent(Published(one, last, n + |deltas|), Published(other, last, n + |deltas|));
    }
  }

  /** `shown` is the version of delta `i`, and no earlier delta has one that is as new. */
  ghost predicate FirstWith(deltas: seq<Delta>, r: Resource, i: nat, shown: Observed) {
    && i < |deltas| && r in deltas[i] && shown == deltas[i][r]
    && forall j | 0 <= j < i && r in deltas[j] :: deltas[j][r].sourceVersion < shown.sourceVersion
  }

  /** Deltas that are published in turn leave, for each resource, the first of the newest versions. */
  lemma {:induction false} FirstOfTheNewest(slots: Slots, deltas: seq<Delta>, n: nat, r: Resource)
    requires r in slots
    ensures var shown := PublishedInTurn(slots, deltas, n)[r].observed;
      && slots[r].observed.sourceVersion <= shown.sourceVersion
      && (forall i | 0 <= i < |deltas| && r in deltas[i] :: deltas[i][r].sourceVersion <= shown.sourceVersion)
      && (shown == slots[r].observed || exists i :: FirstWith(deltas, r, i, shown))
  {
    if deltas == [] {
    } else {
      var k := |deltas| - 1;
      var before := deltas[..k];
      FirstOfTheNewest(slots, before, n, r);
      var was := PublishedInTurn(slots, before, n)[r].observed;
      assert forall i | 0 <= i < k :: before[i] == deltas[i];
      if r in deltas[k] && deltas[k][r].sourceVersion > was.sourceVersion {
        assert FirstWith(deltas, r, k, deltas[k][r]);
      } else if was != slots[r].observed {
        var i :| FirstWith(before, r, i, was);
        assert FirstWith(deltas, r, i, was);
      }
    }
  }

  datatype Effect = Started(jobId: JobId, projections: Delta) | Refused(error: string)

  datatype ItemResult = Success(item: string, job: JobId) | Failure(item: string, error: string)

  /** What the failure of an import says that was started but is not shown. */
  function MissingProjection(job: JobId): string {
    "missing projection of " + job
  }

  const BATCH_CONTRACT := "batch contract"

  /** The projections of the effects that took place, in order. */
  function Projections(effects: seq<Effect>): seq<Delta> {
    if effects == [] then []
    else Projections(effects[..|effects| - 1]) +
         if effects[|effects| - 1].Started? then [effects[|effects| - 1].projections] else []
  }

  lemma MergeNext(effects: seq<Effect>, n: nat)
    requires n < |effects|
    ensures MergeAll(Projections(effects[..n + 1])) ==
      if effects[n].Started? then Merge(MergeAll(Projections(effects[..n])), effects[n].projections)
      else MergeAll(Projections(effects[..n]))
  {
    var before := Projections(effects[..n]);
    assert effects[..n + 1][..n] == effects[..n] && effects[..n + 1][n] == effects[n];
    if effects[n].Started? {
      assert (before + [effects[n].projections])[..|before|] == before;
    } else {
      assert before + [] == before;
    }
  }

  class MediaApplication {
    var slots: Slots
    var globalRevision: nat

    /** No slot is newer than the whole. */
    ghost predicate Valid()
      reads this
    {
      Total(slots) && globalRevision <= MAX_REVISION && forall r <- slots :: slots[r].revision <= globalRevision
    }

    constructor (seed: Slots)
      requires Total(seed) && forall r <- seed :: seed[r].revision == 0
      ensures Valid() && slots == seed && globalRevision == 0
    {
      slots, globalRevision := seed, 0;
    }

    /** Publishes what is newer under one fresh revision, and returns the resources to announce. */
    method PublishDelta(delta: Delta) returns (events: seq<Resource>)
      requires Valid()
      modifies this
      ensures Valid()
      ensures slots == Published(old(slots), delta, globalRevision)
      ensures events == AcceptedOf(old(slots), delta, RESOURCES)
      ensures forall r: Resource ::
        slots[r] ==
        if r in delta && delta[r].sourceVersion > old(slots)[r].observed.sourceVersion
        then Slot(delta[r], globalRevision) else old(slots)[r]
      ensures forall r :: r in events <==> r in delta && delta[r].sourceVersion > old(slots)[r].observed.sourceVersion
      ensures forall i, j | 0 <= i < j < |events| :: Rank(events[i]) < Rank(events[j])
      ensures globalRevision ==
        if events == [] || old(globalRevision) == MAX_REVISION then old(globalRevision) else old(globalRevision) + 1
    {
      Announced(slots, delta);
      AllResources();
      if forall r <- RESOURCES :: !Accepts(slots, delta, r) {
        return [];
      }
      if globalRevision < MAX_REVISION {
        globalRevision := globalRevision + 1;
      }
      events := Replace(delta);
    }

    method Replace(delta: Delta) returns (events: seq<Resource>)
      requires Total(slots)
      modifies this`slots
      ensures slots == Published(old(slots), delta, globalRevision)
      ensures events == AcceptedOf(old(slots), delta, RESOURCES)
    {
      ghost var before := slots;
      events := [];
      for n := 0 to |RESOURCES|
        invariant forall r: Resource :: r in slots
        invariant forall r: Resource ::
          slots[r] == if r in RESOURCES[..n] && Accepts(before, delta, r) then Slot(delta[r], globalRevision)
          else before[r]
        invariant events == AcceptedOf(before, delta, RESOURCES[..n])
      {
        var r := RESOURCES[n];
        NextResource(before, delta, n);
        if Accepts(slots, delta, r) {
          slots := slots[r := Slot(delta[r], globalRevision)];
          events := events + [r];
        }
      }
      AllResources();
      assert RESOURCES[..|RESOURCES|] == RESOURCES;
    }

    /** A snapshot never shows half of a delta, nor a part newer than itself. */
    method ReadSnapshot() returns (revision: nat, parts: Slots)
      requires Valid()
      ensures revision == globalRevision && parts == slots
      ensures forall r <- parts :: parts[r].revision <= revision
    {
      return globalRevision, slots;
    }

    /** Starts imports one by one and publishes all their projections at once: what is shown is what
      * publishing every effect in order would show. */
    method StartImportBatch(items: seq<string>, effects: seq<Effect>)
      returns (results: seq<ItemResult>, operationError: Option<string>)
      requires Valid() && |items| == |effects|
      modifies this
      ensures Valid()
      ensures SameContent(slots, PublishedInTurn(old(slots), Projections(effects), old(globalRevision)))
      ensures |results| == |items| && forall i | 0 <= i < |items| :: results[i].item == items[i]
      ensures forall i | 0 <= i < |items| :: results[i] == match effects[i]
        case Started(job, _) => if job in slots[Imports].observed.value.jobs then Success(items[i], job)
                                else Failure(items[i], MissingProjection(job))
        case Refused(error) => Failure(items[i], error)
      ensures operationError ==
        if exists i | 0 <= i < |items| :: effects[i].Started? && effects[i].jobId !in slots[Imports].observed.value.jobs
        then Some(BATCH_CONTRACT) else None
      ensures forall r <- slots | slots[r] != old(slots)[r] :: slots[r].revision == globalRevision
      ensures globalRevision <= old(globalRevision) + 1
    {
      var projections := new ProjectionDelta();
      for n := 0 to |items|
        invariant projections.observed == MergeAll(Projections(effects[..n])) && fresh(projections)
        invariant slots == old(slots) && globalRevision == old(globalRevision)
      {
        MergeNext(effects, n);
        if effects[n].Started? {
          projections.MergeIn(effects[n].projections);
        }
      }
      assert effects[..|items|] == effects;
      ghost var before := slots;
      var _ := PublishDelta(projections.observed);
      MergeAllThenPublish(before, Projections(effects), old(globalRevision), globalRevision);
      results, operationError := Verdicts(items, effects, slots[Imports].observed.value.jobs);
    }
  }

  /** One verdict per item: a job that was started but is not shown is a failure of the whole batch. */
  method Verdicts(items: seq<string>, effects: seq<Effect>, visible: set<JobId>)
    returns (results: seq<ItemResult>, operationError: Option<string>)
    requires |items| == |effects|
    ensures |results| == |items|
    ensures forall i | 0 <= i < |items| :: results[i] == match effects[i]
      case Started(job, _) => if job in visible then Success(items[i], job)
                              else Failure(items[i], MissingProjection(job))
      case Refused(error) => Failure(items[i], error)
    ensures operationError ==
      if exists i | 0 <= i < |items| :: effects[i].Started? && effects[i].jobId !in visible
      then Some(BATCH_CONTRACT) else None
  {
    results, operationError := [], None;
    for n := 0 to |items|
      invariant |results| == n
      invariant forall i | 0 <= i < n :: results[i] == match effects[i]
        case Started(job, _) => if job in visible then Success(items[i], job)
                                else Failure(items[i], MissingProjection(job))
        case Refused(error) => Failure(items[i], error)
      invariant operationError ==
        if exists i | 0 <= i < n :: effects[i].Started? && effects[i].jobId !in visible
        then Some(BATCH_CONTRACT) else None
    {
      match effects[n] {
        case Started(job, _) =>
          if job in visible {
            results := results + [Success(items[n], job)];
          } else {
            operationError := Some(BATCH_CONTRACT);
            results := results + [Failure(items[n], MissingProjection(job))];
          }
        case Refused(error) =>
          results := results + [Failure(items[n], error)];
      }
    }
  }

  lemma NextResource(slots: Slots, d: Delta, n: nat)
    requires n < |RESOURCES|
    ensures RESOURCES[n] !in RESOURCES[..n]
    ensures forall r :: r in RESOURCES[..n + 1] <==> r in RESOURCES[..n] || r == RESOURCES[n]
    ensures AcceptedOf(slots, d, RESOURCES[..n + 1]) ==
      AcceptedOf(slots, d, RESOURCES[..n]) + if Accepts(slots, d, RESOURCES[n]) then [RESOURCES[n]] else []
  {
    assert RESOURCES[..n + 1] == RESOURCES[..n] + [RESOURCES[n]] && RESOURCES[..n + 1][..n] == RESOURCES[..n];
  }
}
