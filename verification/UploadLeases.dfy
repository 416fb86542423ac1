/** Uploads and deletions of one library, as they interleave: an upload holds a lease from before its job
  * exists until a terminal state is seen, and a deletion first looks and then takes its own leases.
  */
module UploadLeases {
  import opened DeleteWorld

  type JobId = nat

  datatype Owner = By(op: OpId) | Nobody

  /** A durable upload job.  `owner` is the upload command whose lease covers it. */
  datatype Job = Job(key: Key, live: bool, owner: Owner)

  datatype Stage = Starting | Reaping | Unwatched

  /** An upload command that has taken its lease. */
  datatype Command = Command(key: Key, jobs: set<JobId>, stage: Stage)

  /** A delete command: keys found without a lease, keys then found free altogether, whether it holds its
    * leases, and the jobs that a failed start left alive on a key after that key was found free. */
  datatype Deletion = Deletion(keys: set<Key>, unleased: set<Key>, free: set<Key>, leased: bool, late: set<JobId>)

  datatype State = State(
    running: bool,
    leases: map<Key, Lease>,
    jobs: map<JobId, Job>,
    uploads: map<OpId, Command>,
    deletes: map<OpId, Deletion>,
    nextOp: OpId)

  datatype Step =
    | BeginUpload(key: Key)                       // takes the lease, or is refused
    | CreateJob(up: OpId, job: JobId)             // a new live job, or a live one that exists already
    | Started(up: OpId)                           // hands the lease to the reaper
    | StartFailed(up: OpId, leftAlive: bool)      // gives the lease back; the job is cancelled or not
    | JobEnds(job: JobId)                         // reaches a terminal state
    | Reap(up: OpId)                              // the reaper looks at the job
    | ReaperGivesUp(up: OpId)                     // after its last look
    | BeginDelete(keys: set<Key>)
    | LookAtLease(del: OpId, key: Key)            // the busy check of one key: first its lease,
    | LookAtJobs(del: OpId, key: Key)             // then the unfinished uploads
    | TakeLeases(del: OpId)                       // all of them or none
    | EndDelete(del: OpId)
    | Crash
    | CancelAtBoot(job: JobId)
    | FinishBoot                                  // every lease left over is released

  predicate LiveOn(s: State, j: JobId, key: Key) {
    j in s.jobs && s.jobs[j].live && s.jobs[j].key == key
  }

  function WithLate(deletes: map<OpId, Deletion>, key: Key, jobs: set<JobId>): map<OpId, Deletion> {
    map d | d in deletes :: if key in deletes[d].free then deletes[d].(late := deletes[d].late + jobs) else deletes[d]
  }

  predicate Deletes(step: Step) {
    step.BeginDelete? || step.LookAtLease? || step.LookAtJobs? || step.TakeLeases? || step.EndDelete?
  }

  /** The state after `step`; a step that is not possible changes nothing. */
  function Apply(s: State, step: Step): State {
    match step
    case Crash => s.(running := false, uploads := map[], deletes := map[])
    case CancelAtBoot(j) =>
      if !s.running && j in s.jobs then s.(jobs := s.jobs[j := s.jobs[j].(live := false)]) else s
    case FinishBoot =>
      if !s.running && (forall j <- s.jobs :: !s.jobs[j].live) then s.(running := true, leases := map[]) else s
    case JobEnds(j) =>
      if j in s.jobs then s.(jobs := s.jobs[j := s.jobs[j].(live := false)]) else s
    case _ =>
      if !s.running then s
      else if Deletes(step) then ActOnDelete(s, step)
      else ActOnUpload(s, step)
  }

  function ActOnUpload(s: State, step: Step): State {
    match step
    case BeginUpload(key) =>
      if key in s.leases then s
      else s.(leases := s.leases[key := Lease(s.nextOp, Upload)],
              uploads := s.uploads[s.nextOp := Command(key, {}, Starting)],
              nextOp := s.nextOp + 1)
    case CreateJob(up, j) =>
      if up in s.uploads && s.uploads[up].stage == Starting && s.uploads[up].jobs == {} &&
         (j !in s.jobs || LiveOn(s, j, s.uploads[up].key))
      then s.(jobs := s.jobs[j := Job(s.uploads[up].key, true, By(up))],
              uploads := s.uploads[up := s.uploads[up].(jobs := {j})])
      else s
    case Started(up) =>
      if up in s.uploads && s.uploads[up].stage == Starting && s.uploads[up].jobs != {}
      then s.(uploads := s.uploads[up := s.uploads[up].(stage := Reaping)])
      else s
    case StartFailed(up, leftAlive) =>
      if up in s.uploads && s.uploads[up].stage == Starting then FailStart(s, up, leftAlive) else s
    case Reap(up) =>
      if up in s.uploads && s.uploads[up].stage == Reaping &&
         (forall j <- s.uploads[up].jobs :: j in s.jobs && !s.jobs[j].live)
      then s.(leases := WithoutLeases(s.leases, up), uploads := s.uploads - {up})
      else s
    case ReaperGivesUp(up) =>
      if up in s.uploads && s.uploads[up].stage == Reaping
      then s.(uploads := s.uploads[up := s.uploads[up].(stage := Unwatched)])
      else s
    case _ => s
  }

  function ActOnDelete(s: State, step: Step): State {
    match step
    case BeginDelete(keys) =>
      s.(deletes := s.deletes[s.nextOp := Deletion(keys, {}, {}, false, {})], nextOp := s.nextOp + 1)
    case LookAtLease(d, key) =>
      if d in s.deletes && !s.deletes[d].leased && key in s.deletes[d].keys then
        if key in s.leases then s.(deletes := s.deletes - {d})
        else s.(deletes := s.deletes[d := s.deletes[d].(unleased := s.deletes[d].unleased + {key})])
      else s
    case LookAtJobs(d, key) =>
      if d in s.deletes && !s.deletes[d].leased && key in s.deletes[d].unleased && key in s.deletes[d].keys then
        if exists j <- s.jobs :: LiveOn(s, j, key) then s.(deletes := s.deletes - {d})
        else s.(deletes := s.deletes[d := s.deletes[d].(free := s.deletes[d].free + {key})])
      else s
    case TakeLeases(d) =>
      if d in s.deletes && !s.deletes[d].leased && s.deletes[d].keys <= s.deletes[d].free then
        if s.deletes[d].keys !! s.leases.Keys
        then s.(leases := WithLeases(s.leases, d, s.deletes[d].keys),
                deletes := s.deletes[d := s.deletes[d].(leased := true)])
        else s.(deletes := s.deletes - {d})
      else s
    case EndDelete(d) =>
      if d in s.deletes && s.deletes[d].leased
      then s.(leases := WithoutLeases(s.leases, d), deletes := s.deletes - {d})
      else s
    case _ => s
  }

  function FailStart(s: State, up: OpId, leftAlive: bool): State
    requires up in s.uploads
  {
    var mine := s.uploads[up].jobs;
    s.(leases := WithoutLeases(s.leases, up),
       uploads := s.uploads - {up},
       jobs := map j | j in s.jobs ::
         if j in mine then Job(s.jobs[j].key, s.jobs[j].live && leftAlive, Nobody) else s.jobs[j],
       deletes := if leftAlive then WithLate(s.deletes, s.uploads[up].key, mine) else s.deletes)
  }

  function Run(s: State, steps: seq<Step>): State {
    if steps == [] then s else Apply(Run(s, steps[..|steps| - 1]), steps[|steps| - 1])
  }

  const INITIAL := State(true, map[], map[], map[], map[], 0)

  /* ------------------------------ what every run keeps ------------------------------ */

  /** Upload `op` holds the lease of its key, and works on jobs of that key. */
  ghost predicate Holds(s: State, op: OpId) {
    && op in s.uploads && op < s.nextOp
    && s.uploads[op].key in s.leases && s.leases[s.uploads[op].key] == Lease(op, Upload)
    && forall j <- s.uploads[op].jobs :: j in s.jobs && s.jobs[j].key == s.uploads[op].key
  }

  /** A live job with an owner is one of the jobs of that upload. */
  ghost predicate Covered(s: State, j: JobId) {
    j in s.jobs && s.jobs[j].live && s.jobs[j].owner.By? ==>
      s.jobs[j].owner.op in s.uploads && j in s.uploads[s.jobs[j].owner.op].jobs
  }

  /** Delete `d` holds the leases of its keys, if it has come that far. */
  ghost predicate Claims(s: State, d: OpId)
    requires d in s.deletes
  {
    s.deletes[d].leased ==>
      && s.deletes[d].keys <= s.deletes[d].free
      && forall k <- s.deletes[d].keys :: k in s.leases && s.leases[k] == Lease(d, Delete)
  }

  /** What lives on a key that `d` has found free belongs to a later upload, or came too late to be seen. */
  ghost predicate Guarded(s: State, d: OpId)
    requires d in s.deletes
  {
    && s.deletes[d].free <= s.deletes[d].keys
    && (forall j <- s.jobs | s.jobs[j].live && s.jobs[j].key in s.deletes[d].free ::
         s.jobs[j].owner.By? || j in s.deletes[d].late)
    && forall j <- s.deletes[d].late :: j in s.jobs && s.jobs[j].key in s.deletes[d].free
  }

  ghost predicate Inv(s: State) {
    && (forall op <- s.uploads :: Holds(s, op))
    && (s.running ==> forall j <- s.jobs :: Covered(s, j))
    && (forall d <- s.deletes :: d < s.nextOp && Claims(s, d) && Guarded(s, d))
    && s.uploads.Keys !! s.deletes.Keys
    && (!s.running ==> s.uploads == map[] && s.deletes == map[])
  }

  lemma HoldsIsKept(s: State, step: Step, op: OpId)
    requires op in s.uploads ==> Holds(s, op)
    requires s.uploads.Keys !! s.deletes.Keys
    requires !s.running ==> s.uploads == map[]
    requires op in Apply(s, step).uploads
    ensures Holds(Apply(s, step), op)
  {
  }

  lemma CoveredIsKept(s: State, step: Step, j: JobId)
    requires s.running ==> Covered(s, j)
    requires forall op <- s.uploads :: Holds(s, op)
    requires Apply(s, step).running
    ensures Covered(Apply(s, step), j)
  {
  }

  lemma ClaimsAreKept(s: State, step: Step, d: OpId)
    requires d in s.deletes ==> d < s.nextOp && Claims(s, d)
    requires s.uploads.Keys !! s.deletes.Keys
    requires !s.running ==> s.deletes == map[]
    requires d in Apply(s, step).deletes
    ensures d < Apply(s, step).nextOp && Claims(Apply(s, step), d)
  {
  }

  lemma GuardedIsKept(s: State, step: Step, d: OpId)
    requires d in s.deletes ==> Guarded(s, d)
    requires forall op <- s.uploads :: Holds(s, op)
    requires d in Apply(s, step).deletes
    ensures Guarded(Apply(s, step), d)
  {
    if s.running && Deletes(step) {
      GuardedOnDelete(s, step, d);
    } else if s.running {
      GuardedOnUpload(s, step, d);
    }
  }

  lemma GuardedOnDelete(s: State, step: Step, d: OpId)
    requires d in s.deletes ==> Guarded(s, d)
    requires d in ActOnDelete(s, step).deletes
    ensures Guarded(ActOnDelete(s, step), d)
  {
  }

  lemma GuardedOnUpload(s: State, step: Step, d: OpId)
    requires d in s.deletes ==> Guarded(s, d)
    requires forall op <- s.uploads :: Holds(s, op)
    requires d in ActOnUpload(s, step).deletes
    ensures Guarded(ActOnUpload(s, step), d)
  {
  }

  lemma ApplyKeepsInv(s: State, step: Step)
    requires Inv(s)
    ensures Inv(Apply(s, step))
  {
    forall op | op in Apply(s, step).uploads ensures Holds(Apply(s, step), op) {
      HoldsIsKept(s, step, op);
    }
    forall j | Apply(s, step).running ensures Covered(Apply(s, step), j) {
      CoveredIsKept(s, step, j);
    }
    DeletesAreKept(s, step);
    KindsStayApart(s, step);
  }

  lemma DeletesAreKept(s: State, step: Step)
    requires Inv(s)
    ensures forall d <- Apply(s, step).deletes ::
      d < Apply(s, step).nextOp && Claims(Apply(s, step), d) && Guarded(Apply(s, step), d)
  {
    forall d | d in Apply(s, step).deletes
      ensures d < Apply(s, step).nextOp && Claims(Apply(s, step), d) && Guarded(Apply(s, step), d)
    {
      ClaimsAreKept(s, step, d);
      GuardedIsKept(s, step, d);
    }
  }

  lemma KindsStayApart(s: State, step: Step)
    requires Inv(s)
    ensures Apply(s, step).uploads.Keys !! Apply(s, step).deletes.Keys
    ensures !Apply(s, step).running ==> Apply(s, step).uploads == map[] && Apply(s, step).deletes == map[]
  {
  }

  lemma {:induction false} RunKeepsInv(steps: seq<Step>)
    ensures Inv(Run(INITIAL, steps))
  {
    if steps == [] {
    } else {
      RunKeepsInv(steps[..|steps| - 1]);
      ApplyKeepsInv(Run(INITIAL, steps[..|steps| - 1]), steps[|steps| - 1]);
    }
  }

  /* ------------------------------ the results ------------------------------ */

  /** From its creation until a terminal state is seen, the entry of a job that an upload command works on
    * is leased to that command. */
  lemma LiveJobIsLeased(steps: seq<Step>, j: JobId)
    requires var s := Run(INITIAL, steps); s.running && j in s.jobs && s.jobs[j].live && s.jobs[j].owner.By?
    ensures var s := Run(INITIAL, steps);
      s.jobs[j].key in s.leases && s.leases[s.jobs[j].key] == Lease(s.jobs[j].owner.op, Upload)
  {
    var s := Run(INITIAL, steps);
    RunKeepsInv(steps);
    assert Covered(s, j) && Holds(s, s.jobs[j].owner.op);
  }

  /** What is alive on the keys of a delete command that holds its leases: exactly the jobs that failing
    * starts left alive after the command had looked at their keys. */
  lemma AliveUnderDelete(steps: seq<Step>, d: OpId, j: JobId)
    requires var s := Run(INITIAL, steps); d in s.deletes && s.deletes[d].leased
    ensures var s := Run(INITIAL, steps);
      j in s.jobs && s.jobs[j].live && s.jobs[j].key in s.deletes[d].keys <==>
      j in s.jobs && s.jobs[j].live && j in s.deletes[d].late
  {
    var s := Run(INITIAL, steps);
    RunKeepsInv(steps);
    assert Claims(s, d) && Guarded(s, d);
    if j in s.jobs && s.jobs[j].live && s.jobs[j].owner.By? && s.running {
      LiveJobIsLeased(steps, j);
    }
  }

  /** As long as every failing start also cancels its job, no entry is deleted under a live upload. */
  lemma NoDeleteUnderUpload(steps: seq<Step>, d: OpId, j: JobId)
    requires forall step <- steps :: !(step.StartFailed? && step.leftAlive)
    requires var s := Run(INITIAL, steps); d in s.deletes && s.deletes[d].leased
    requires var s := Run(INITIAL, steps); j in s.jobs && s.jobs[j].key in s.deletes[d].keys
    ensures !Run(INITIAL, steps).jobs[j].live
  {
    AliveUnderDelete(steps, d, j);
    NothingLate(steps, d);
  }

  lemma StaysOnTime(s: State, step: Step, d: OpId)
    requires !(step.StartFailed? && step.leftAlive)
    requires d in s.deletes ==> s.deletes[d].late == {}
    ensures d in Apply(s, step).deletes ==> Apply(s, step).deletes[d].late == {}
  {
  }

  lemma {:induction false} NothingLate(steps: seq<Step>, d: OpId)
    requires forall step <- steps :: !(step.StartFailed? && step.leftAlive)
    requires d in Run(INITIAL, steps).deletes
    ensures Run(INITIAL, steps).deletes[d].late == {}
  {
    if steps == [] {
    } else {
      var s := Run(INITIAL, steps[..|steps| - 1]);
      if d in s.deletes {
        NothingLate(steps[..|steps| - 1], d);
      }
      StaysOnTime(s, steps[|steps| - 1], d);
    }
  }

  /** What each command does to the leases: a key is leased exactly if it was free, all keys of a deletion or
    * none, and a command that is over has given back what it held. */
  lemma LeasesExactly(s: State, step: Step)
    requires s.running && Inv(s)
    ensures var v := Apply(s, step);
      match step
      case BeginUpload(key) =>
        v.leases == if key in s.leases then s.leases else s.leases[key := Lease(s.nextOp, Upload)]
      case StartFailed(up, _) =>
        (up in s.uploads && s.uploads[up].stage == Starting ==>
          v.leases == WithoutLeases(s.leases, up) && up !in v.uploads)
      case Reap(up) =>
        (up in s.uploads && s.uploads[up].stage == Reaping && (forall j <- s.uploads[up].jobs :: !s.jobs[j].live) ==>
          v.leases == WithoutLeases(s.leases, up) && up !in v.uploads)
      case TakeLeases(d) =>
        (d in s.deletes && !s.deletes[d].leased && s.deletes[d].keys <= s.deletes[d].free ==>
          if s.deletes[d].keys !! s.leases.Keys
          then v.leases == WithLeases(s.leases, d, s.deletes[d].keys) && d in v.deletes && v.deletes[d].leased
          else v.leases == s.leases && d !in v.deletes)
      case EndDelete(d) =>
        (d in s.deletes && s.deletes[d].leased ==> v.leases == WithoutLeases(s.leases, d) && d !in v.deletes)
      case _ => true
  {
  }

  /** The busy check finds a key free exactly if it is not leased and no unfinished upload is on it. */
  lemma LooksExactly(s: State, d: OpId, key: Key)
    requires s.running && d in s.deletes && !s.deletes[d].leased && key in s.deletes[d].keys
    ensures var v := Apply(s, LookAtLease(d, key));
      if key in s.leases then d !in v.deletes else d in v.deletes && key in v.deletes[d].unleased
    ensures var v := Apply(s, LookAtJobs(d, key));
      key in s.deletes[d].unleased ==>
      if exists j <- s.jobs :: s.jobs[j].live && s.jobs[j].key == key then d !in v.deletes
      else d in v.deletes && key in v.deletes[d].free
  {
    assert forall j :: LiveOn(s, j, key) <==> j in s.jobs && s.jobs[j].live && s.jobs[j].key == key;
  }

  /** A launch cancels jobs before any command runs, and comes up with no lease as soon as no job lives. */
  lemma BootExactly(s: State, job: JobId)
    requires !s.running && Inv(s) && job in s.jobs
    ensures var v := Apply(s, CancelAtBoot(job));
      !v.running && v.leases == s.leases && v.jobs == s.jobs[job := s.jobs[job].(live := false)]
    ensures var v := Apply(s, FinishBoot);
      if exists j <- s.jobs :: s.jobs[j].live then v == s
      else v.running && v.leases == map[] && v.jobs == s.jobs && v.uploads == map[] && v.deletes == map[]
  {
  }

  /** A reaper that gives up leaves the lease where it is: the key stays refused to uploads and deletions, the
    * job ended or not, until the next launch. */
  lemma GivenUpIsHeld(s: State, up: OpId, d: OpId)
    requires s.running && Inv(s) && up in s.uploads && s.uploads[up].stage == Reaping
    requires d in s.deletes && !s.deletes[d].leased && s.uploads[up].key in s.deletes[d].keys
    ensures var key := s.uploads[up].key;
      var v := Apply(s, ReaperGivesUp(up));
      && v.leases == s.leases && v.jobs == s.jobs && v.deletes == s.deletes
      && up in v.uploads && v.uploads[up].key == key
      && key in v.leases && v.leases[key] == Lease(up, Upload)
      && Apply(v, Reap(up)) == v
      && Apply(v, BeginUpload(key)) == v
      && d !in Apply(v, LookAtLease(d, key)).deletes
  {
  }

  /** An upload that runs its course leaves no lease behind, whatever else is leased. */
  lemma UploadGivesBack(s: State, key: Key, job: JobId)
    requires s.running && Inv(s) && key !in s.leases && job !in s.jobs
    requires forall k <- s.leases :: s.leases[k].op != s.nextOp
    ensures var up := s.nextOp;
      var v := Apply(Apply(Apply(s, BeginUpload(key)), CreateJob(up, job)), Started(up));
      && v.leases == s.leases[key := Lease(up, Upload)] && LiveOn(v, job, key)
      && Apply(v, Reap(up)) == v
      && Apply(Apply(v, JobEnds(job)), Reap(up)).leases == s.leases
  {
    var up := s.nextOp;
    var s1 := Apply(s, BeginUpload(key));
    var s2 := Apply(s1, CreateJob(up, job));
    assert s2.uploads[up] == Command(key, {job}, Starting) && s2.jobs[job] == Job(key, true, By(up));
    var v := Apply(s2, Started(up));
    assert v.uploads[up] == Command(key, {job}, Reaping);
    var u := Apply(v, JobEnds(job));
    assert !u.jobs[job].live && WithoutLeases(u.leases, up) == s.leases;
  }

  /** The window is real: a start that fails between the look and the leases, and leaves its job alive. */
  lemma LateJobHappens(key: Key)
    ensures var s := Run(INITIAL, LookThenBegin(key) + [CreateJob(1, 5), StartFailed(1, true), TakeLeases(0)]);
      0 in s.deletes && s.deletes[0].leased && LiveOn(s, 5, key)
  {
    var t0, t4, t5, t6 := LookThenBegin(key), CreateJob(1, 5), StartFailed(1, true), TakeLeases(0);
    var s4 := AfterTheJob(key);
    var s5 := Extend(t0 + [t4], s4, t5, t0 + [t4, t5]);
    FailedStartLeavesJob(s4, key);
    var s6 := Extend(t0 + [t4, t5], s5, t6, t0 + [t4, t5, t6]);
  }

  lemma FailedStartLeavesJob(s: State, key: Key)
    requires s.running && s.leases == map[key := Lease(1, Upload)] && s.jobs == map[5 := Job(key, true, By(1))]
    requires 1 in s.uploads && s.uploads[1] == Command(key, {5}, Starting)
    requires 0 in s.deletes && s.deletes[0] == Deletion({key}, {key}, {key}, false, {})
    ensures var t := Apply(s, StartFailed(1, true));
      t.running && t.leases == map[] && LiveOn(t, 5, key) &&
      0 in t.deletes && t.deletes[0] == Deletion({key}, {key}, {key}, false, {5})
  {
  }

  lemma AfterTheJob(key: Key) returns (s: State)
    ensures s == Run(INITIAL, LookThenBegin(key) + [CreateJob(1, 5)])
    ensures s.running && s.leases == map[key := Lease(1, Upload)] && s.jobs == map[5 := Job(key, true, By(1))]
    ensures 1 in s.uploads && s.uploads[1] == Command(key, {5}, Starting)
    ensures 0 in s.deletes && s.deletes[0] == Deletion({key}, {key}, {key}, false, {})
  {
    var t0, t4 := LookThenBegin(key), CreateJob(1, 5);
    var s3 := AfterTheLook(key);
    s := Extend(t0, s3, t4, t0 + [t4]);
  }

  function LookThenBegin(key: Key): seq<Step> {
    [BeginDelete({key}), LookAtLease(0, key), LookAtJobs(0, key), BeginUpload(key)]
  }

  lemma AfterTheLook(key: Key) returns (s: State)
    ensures s == Run(INITIAL, LookThenBegin(key))
    ensures s.running && s.leases == map[key := Lease(1, Upload)] && s.jobs == map[]
    ensures s.uploads == map[1 := Command(key, {}, Starting)]
    ensures s.deletes.Keys == {0} && s.deletes[0] == Deletion({key}, {key}, {key}, false, {})
  {
    var t := LookThenBegin(key);
    var s1 := Extend([], INITIAL, t[0], t[..1]);
    assert s1 == ActOnDelete(INITIAL, t[0]);
    assert s1.deletes.Keys == {0} && s1.deletes[0] == Deletion({key}, {}, {}, false, {});
    var s2 := Extend(t[..1], s1, t[1], t[..2]);
    assert s2.deletes.Keys == {0} && s2.deletes[0] == Deletion({key}, {key}, {}, false, {});
    var s3 := Extend(t[..2], s2, t[2], t[..3]);
    s := Extend(t[..3], s3, t[3], t);
  }

  lemma Extend(before: seq<Step>, s: State, step: Step, after: seq<Step>) returns (t: State)
    requires Run(INITIAL, before) == s && after == before + [step]
    ensures t == Apply(s, step) == Run(INITIAL, after)
  {
    t := Apply(s, step);
    assert after[..|after| - 1] == before;
  }
}
