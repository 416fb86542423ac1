/** The authority over the media library root: shared leases pin it, the exclusive lease changes it, and a
  * generation tells every root from every other.
  */
module LibraryRoot {
  import opened Wrappers

  type Path = string

  /** What the file system says of a directory. */
  datatype RootIdentity = RootIdentity(canonicalPath: Path, device: nat, inode: nat)

  /** The file system at one moment; `None` is an unavailable root. */
  type Files = Path -> Option<RootIdentity>

  datatype Lease = Lease(id: nat, root: Path, identity: RootIdentity, generation: nat)

  datatype Refusal = Busy(holders: nat) | Unavailable | Changed

  datatype Result<+T> = Ok(value: T) | Err(why: Refusal)

  /** The authority, and the shared leases that have not been dropped. */
  datatype State = State(root: Path, identity: RootIdentity, generation: nat,
                         live: set<Lease>, exclusive: bool, nextLease: nat)

  /** A call, with the file system it meets. */
  datatype Step =
    | AcquireShared(files: Files)
    | ReleaseShared(lease: Lease)
    | AcquireExclusive
    | Install(files: Files, root: Path)
    | ReleaseExclusive

  /** The root is looked at again, so one that was replaced while idle is caught at acquisition. */
  predicate Grants(s: State, files: Files) {
    !s.exclusive && files(s.root) == Some(s.identity)
  }

  function LeaseOf(s: State): Lease {
    Lease(s.nextLease, s.root, s.identity, s.generation)
  }

  /** Only the holder of the exclusive lease can replace the root, by one that is there. */
  predicate Installs(s: State, step: Step) {
    step.Install? && s.exclusive && step.files(step.root).Some?
  }

  function Apply(s: State, step: Step): State {
    match step
    case AcquireShared(files) =>
      if Grants(s, files) then s.(live := s.live + {LeaseOf(s)}, nextLease := s.nextLease + 1) else s
    case ReleaseShared(lease) => s.(live := s.live - {lease})
    case AcquireExclusive => if !s.exclusive && s.live == {} then s.(exclusive := true) else s
    case Install(files, root) =>
      if Installs(s, step) then s.(root := root, identity := files(root).value, generation := s.generation + 1) else s
    case ReleaseExclusive => s.(exclusive := false)
  }

  function Run(s: State, steps: seq<Step>): State {
    if steps == [] then s else Apply(Run(s, steps[..|steps| - 1]), steps[|steps| - 1])
  }

  /** The fence of a lease, live or not. */
  predicate Passes(s: State, files: Files, lease: Lease) {
    s.generation == lease.generation && s.identity == lease.identity &&
    files(lease.identity.canonicalPath) == Some(lease.identity)
  }

  /* ------------------------------ over runs ------------------------------ */

  /** Shared leases never meet the exclusive lease, and carry the root of right now. */
  ghost predicate Inv(s: State) {
    && (s.exclusive ==> s.live == {})
    && forall l <- s.live ::
         l.root == s.root && l.identity == s.identity && l.generation == s.generation && l.id < s.nextLease
  }

  lemma {:induction false} RunKeepsInv(s: State, steps: seq<Step>)
    requires Inv(s)
    ensures Inv(Run(s, steps))
  {
    if steps == [] {
    } else {
      RunKeepsInv(s, steps[..|steps| - 1]);
    }
  }

  /** No step of the run replaces the root. */
  ghost predicate NoInstall(s: State, steps: seq<Step>) {
    forall i | 0 <= i < |steps| :: !Installs(Run(s, steps[..i]), steps[i])
  }

  lemma NoInstallStep(s: State, steps: seq<Step>)
    requires steps != []
    ensures var before, last := steps[..|steps| - 1], steps[|steps| - 1];
      NoInstall(s, steps) <==> NoInstall(s, before) && !Installs(Run(s, before), last)
  {
    var before := steps[..|steps| - 1];
    assert forall i | 0 <= i < |before| :: before[..i] == steps[..i];
  }

  /** Without an install the root stays what it was, and with one the generation has grown past it. */
  lemma {:induction false} GenerationTells(s: State, steps: seq<Step>)
    ensures var t := Run(s, steps);
      if NoInstall(s, steps) then t.root == s.root && t.identity == s.identity && t.generation == s.generation
      else t.generation > s.generation
  {
    if steps == [] {
    } else {
      GenerationTells(s, steps[..|steps| - 1]);
      NoInstallStep(s, steps);
    }
  }

  /** A lease that was granted at some point, whatever happened since: its fence passes exactly if no root
    * was installed in between and the file system shows what the lease was granted for. */
  lemma FenceOverRuns(s: State, granted: Files, steps: seq<Step>, now: Files)
    requires Grants(s, granted)
    ensures Passes(Run(Apply(s, AcquireShared(granted)), steps), now, LeaseOf(s)) <==>
      && NoInstall(Apply(s, AcquireShared(granted)), steps)
      && now(s.identity.canonicalPath) == Some(s.identity)
  {
    GenerationTells(Apply(s, AcquireShared(granted)), steps);
  }

  /** A canonical path is its own canonical path. */
  ghost predicate Canonical(files: Files) {
    forall p | files(p).Some? :: files(files(p).value.canonicalPath) == files(p)
  }

  /** While the lease is live no root has been installed, so its fence fails exactly if the directory has
    * changed outside the application since the lease was granted. */
  lemma LiveFenceOverRuns(s: State, granted: Files, steps: seq<Step>, now: Files)
    requires Inv(s) && Grants(s, granted) && Canonical(granted)
    requires LeaseOf(s) in Run(Apply(s, AcquireShared(granted)), steps).live
    ensures NoInstall(Apply(s, AcquireShared(granted)), steps)
    ensures Passes(Run(Apply(s, AcquireShared(granted)), steps), now, LeaseOf(s)) <==>
      now(s.identity.canonicalPath) == granted(s.identity.canonicalPath)
  {
    var after := Apply(s, AcquireShared(granted));
    RunKeepsInv(after, steps);
    GenerationTells(after, steps);
    FenceOverRuns(s, granted, steps, now);
    assert granted(s.root).Some?;
  }

  /** Generations are never used twice: later roots have larger ones. */
  lemma InstallsGrow(s: State, first: Step, between: seq<Step>, second: Step)
    requires Installs(s, first) && Installs(Run(Apply(s, first), between), second)
    ensures s.generation < Apply(s, first).generation < Apply(Run(Apply(s, first), between), second).generation
  {
    GenerationTells(Apply(s, first), between);
  }

  /** The state of a new authority. */
  function Initial(root: Path, identity: RootIdentity): State {
    State(root, identity, 1, {}, false, 0)
  }

  /** One exclusive lease can install more than one root: the run of a new authority. */
  lemma InstalledTwice(root: Path, identity: RootIdentity, files: Files, p: Path, q: Path)
    requires files(p).Some? && files(q).Some?
    ensures var s, steps := Initial(root, identity), [AcquireExclusive, Install(files, p), Install(files, q)];
      && Installs(Run(s, steps[..1]), steps[1]) && Installs(Run(s, steps[..2]), steps[2])
      && Run(s, steps) == State(q, files(q).value, 3, {}, true, 0)
  {
    var s, steps := Initial(root, identity), [AcquireExclusive, Install(files, p), Install(files, q)];
    assert steps[..3] == steps && steps[..2][..1] == steps[..1] && steps[..1][..0] == [];
    assert Run(s, steps[..1]) == Apply(s, AcquireExclusive);
    assert Run(s, steps[..2]) == Apply(Run(s, steps[..1]), Install(files, p));
  }

  /* ------------------------------ the authority ------------------------------ */

  function SaturatingDecrement(n: nat): nat {
    if n > 0 then n - 1 else 0
  }

  class LibraryRootAuthority {
    var root: Path
    var identity: RootIdentity
    var generation: nat
    var sharedLeases: nat
    var exclusiveHeld: bool
    var nextGeneration: nat
    var nextLease: nat

    ghost var live: set<Lease>

    ghost function View(): State
      reads this
    {
      State(root, identity, generation, live, exclusiveHeld, nextLease)
    }

    /** The count is the number of live leases, and the counter stands at the generation. */
    ghost predicate Valid()
      reads this
    {
      Inv(View()) && sharedLeases == |live| && nextGeneration == generation
    }

    constructor (root: Path, identity: RootIdentity)
      ensures Valid() && View() == Initial(root, identity)
      ensures this.root == root && this.identity == identity && generation == 1 && !exclusiveHeld && live == {}
    {
      this.root, this.identity := root, identity;
      generation, sharedLeases, exclusiveHeld, nextGeneration, nextLease, live := 1, 0, false, 1, 0, {};
    }

    method AcquireSharedLease(files: Files) returns (r: Result<Lease>)
      requires Valid()
      modifies this`sharedLeases, this`live, this`nextLease
      ensures Valid() && View() == Apply(old(View()), AcquireShared(files))
      ensures r.Ok? <==> !exclusiveHeld && files(root) == Some(identity)
      ensures r.Ok? ==>
        && r.value == Lease(old(nextLease), root, identity, generation)
        && live == old(live) + {r.value} && nextLease == old(nextLease) + 1
      ensures r.Err? ==> View() == old(View())
      ensures exclusiveHeld ==> r == Err(Busy(1))
      ensures !exclusiveHeld && r.Err? ==> r.why == if files(root).None? then Unavailable else Changed
    {
      if exclusiveHeld {
        return Err(Busy(1));
      }
      match files(root)
      case None => return Err(Unavailable);
      case Some(observed) =>
        if observed != identity {
          return Err(Changed);
        }
        sharedLeases := sharedLeases + 1;
        var lease := Lease(nextLease, root, observed, generation);
        nextLease := nextLease + 1;
        live := live + {lease};
        return Ok(lease);
    }

    /** Never waits. */
    method AcquireExclusiveLease() returns (r: Result<()>)
      requires Valid()
      modifies this`exclusiveHeld
      ensures Valid() && View() == Apply(old(View()), AcquireExclusive)
      ensures r.Ok? <==> !old(exclusiveHeld) && live == {}
      ensures exclusiveHeld <==> old(exclusiveHeld) || r.Ok?
      ensures !old(exclusiveHeld) && r.Err? ==> r.why == Busy(|live|)
    {
      if exclusiveHeld {
        return Err(Busy(1));
      }
      if sharedLeases > 0 {
        return Err(Busy(sharedLeases));
      }
      exclusiveHeld := true;
      return Ok(());
    }

    /** The drop of a shared lease. */
    method DropShared(lease: Lease)
      requires Valid() && lease in live
      modifies this`sharedLeases, this`live
      ensures Valid() && View() == Apply(old(View()), ReleaseShared(lease))
      ensures live == old(live) - {lease}
    {
      sharedLeases := SaturatingDecrement(sharedLeases);
      live := live - {lease};
    }

    /** The drop of the exclusive lease. */
    method DropExclusive()
      requires Valid() && exclusiveHeld
      modifies this`exclusiveHeld
      ensures Valid() && View() == Apply(old(View()), ReleaseExclusive)
      ensures !exclusiveHeld
    {
      exclusiveHeld := false;
    }

    /** Only the holder of the exclusive lease can call this; it may do so more than once. */
    method InstallRoot(files: Files, newRoot: Path) returns (r: Result<nat>)
      requires Valid() && exclusiveHeld
      modifies this`root, this`identity, this`generation, this`nextGeneration
      ensures Valid() && View() == Apply(old(View()), Install(files, newRoot))
      ensures r.Ok? <==> files(newRoot).Some?
      ensures r.Ok? ==>
        && r.value == generation > old(generation) && root == newRoot && Some(identity) == files(newRoot)
      ensures r.Err? ==> View() == old(View())
    {
      match files(newRoot)
      case None => return Err(Unavailable);
      case Some(observed) =>
        nextGeneration := nextGeneration + 1;
        root, identity, generation := newRoot, observed, nextGeneration;
        return Ok(generation);
    }

    /** Re-asserts the fence of a lease, live or not. */
    method AssertCurrent(files: Files, lease: Lease) returns (ok: bool)
      ensures ok <==> Passes(View(), files, lease)
      ensures ok <==>
        && generation == lease.generation && identity == lease.identity
        && files(lease.identity.canonicalPath) == Some(lease.identity)
    {
      if generation != lease.generation || identity != lease.identity {
        return false;
      }
      return files(lease.identity.canonicalPath) == Some(lease.identity);
    }
  }
}
