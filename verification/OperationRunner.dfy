/** The operation runner: identical intents share one request, newer intents of a scope supersede older
  * ones, and a reply may only write while its request is still the newest of its scope.
  */
module OperationRunner {
  import opened Wrappers

  type Key = string
  type Scope = string
  type Id = nat

  /** How far the reply of a request has come: not there yet; there, and the request was found current, so
    * that it may toast a success (`Approved`) or a failure (`Excused`); or done with. */
  datatype Stage = Running | Approved | Excused | Concluded

  /** A request whose promise has not settled. */
  datatype Request = Request(key: Key, scope: Scope, sequence: nat, stage: Stage)

  /** What the outside sees of a request. */
  datatype Trace = Committed(scope: Scope, sequence: nat) | Toasted(scope: Scope, sequence: nat)

  datatype Verdict = Completed | Superseded

  function WithKey(requests: map<Id, Request>, key: Key): set<Id> {
    set id | id in requests && requests[id].key == key
  }

  /** The commits of a scope, in the order in which they happened. */
  function CommitsOf(trace: seq<Trace>, scope: Scope): seq<nat> {
    if trace == [] then
      []
    else
      var last := trace[|trace| - 1];
      CommitsOf(trace[..|trace| - 1], scope) + if last.Committed? && last.scope == scope then [last.sequence] else []
  }

  ghost predicate Increasing(s: seq<nat>) {
    forall i, j | 0 <= i < j < |s| :: s[i] < s[j]
  }

  lemma IncreasingExtend(s: seq<nat>, n: nat)
    requires Increasing(s) && forall x <- s :: x < n
    ensures Increasing(s + [n])
  {
    assert forall i | 0 <= i < |s| :: s[i] in s;
  }

  function Say(trace: seq<Trace>, says: bool, t: Trace): seq<Trace> {
    if says then trace + [t] else trace
  }

  lemma CommitsExtend(trace: seq<Trace>, says: bool, t: Trace, scope: Scope)
    ensures CommitsOf(Say(trace, says, t), scope) ==
      CommitsOf(trace, scope) + if says && t.Committed? && t.scope == scope then [t.sequence] else []
  {
  }

  function Lookup(inFlight: map<Scope, map<Key, Id>>, scope: Scope, key: Key): Option<Id> {
    if scope in inFlight && key in inFlight[scope] then Some(inFlight[scope][key]) else None
  }

  /** A key is busy exactly as often as it has unsettled requests. */
  ghost predicate Tally(counts: map<Key, nat>, requests: map<Id, Request>) {
    forall key ::
      && (key in counts <==> WithKey(requests, key) != {})
      && (key in counts ==> counts[key] == |WithKey(requests, key)|)
  }

  /** The maps of the runner, the closures of the unsettled requests, and what the outside has seen. */
  datatype State = State(
    inFlight: map<Scope, map<Key, Id>>,
    busyCountByKey: map<Key, nat>,
    newestByScope: map<Scope, nat>,
    requests: map<Id, Request>,
    nextId: Id,
    trace: seq<Trace>)
  {
    function Newest(scope: Scope): nat {
      if scope in newestByScope then newestByScope[scope] else 0
    }

    predicate IsCurrent(id: Id) {
      id in requests && Newest(requests[id].scope) == requests[id].sequence
    }

    /** What the dedupe lookup finds. */
    function Slot(scope: Scope, key: Key): Option<Id> {
      Lookup(inFlight, scope, key)
    }

    /** No two requests of a scope share a sequence number, and the newest is the last one given out. */
    ghost predicate Sequenced() {
      && (forall id <- requests :: id < nextId && 1 <= requests[id].sequence <= Newest(requests[id].scope))
      && (forall id <- requests, other <- requests |
            requests[id].scope == requests[other].scope && requests[id].sequence == requests[other].sequence ::
            id == other)
    }

    /** Slots lead to unsettled requests, every current request has its slot, and no scope is left empty. */
    ghost predicate Slotted() {
      && (forall scope, key | Slot(scope, key).Some? ::
            var id := Slot(scope, key).value;
            id in requests && requests[id].scope == scope && requests[id].key == key)
      && (forall id <- requests | IsCurrent(id) :: Slot(requests[id].scope, requests[id].key) == Some(id))
      && (forall scope <- inFlight :: inFlight[scope] != map[])
    }

    ghost predicate Counted() {
      Tally(busyCountByKey, requests)
    }

    /** No commit is ahead of its scope, and a request whose reply is not there has none. */
    ghost predicate CommittedAt(scope: Scope, n: nat) {
      && n <= Newest(scope)
      && forall id <- requests | requests[id].scope == scope && requests[id].stage == Running ::
           requests[id].sequence != n
    }

    ghost predicate InOrder() {
      forall scope ::
        && Increasing(CommitsOf(trace, scope))
        && forall n <- CommitsOf(trace, scope) :: CommittedAt(scope, n)
    }

    ghost predicate Valid() {
      Sequenced() && Slotted() && Counted() && InOrder()
    }
  }

  /* ------------------------------ the steps ------------------------------ */

  function Bump(counts: map<Key, nat>, key: Key): map<Key, nat> {
    counts[key := if key in counts then counts[key] + 1 else 1]
  }

  function Drop(counts: map<Key, nat>, key: Key): map<Key, nat> {
    if key !in counts then counts
    else if counts[key] > 1 then counts[key := counts[key] - 1]
    else counts - {key}
  }

  function Start(s: State, key: Key, scope: Scope): State {
    var slots := if scope in s.inFlight then s.inFlight[scope] else map[];
    State(s.inFlight[scope := slots[key := s.nextId]],
          Bump(s.busyCountByKey, key),
          s.newestByScope[scope := s.Newest(scope) + 1],
          s.requests[s.nextId := Request(key, scope, s.Newest(scope) + 1, Running)],
          s.nextId + 1,
          s.trace)
  }

  function At(s: State, id: Id, stage: Stage): map<Id, Request>
    requires id in s.requests
  {
    s.requests[id := s.requests[id].(stage := stage)]
  }

  /** A request comes to a stage, and the outside may see something of it. */
  function Note(s: State, id: Id, stage: Stage, says: bool, t: Trace): State
    requires id in s.requests
  {
    s.(requests := At(s, id, stage), trace := Say(s.trace, says, t))
  }

  /** The reply to `id` has arrived: a request that is still current is approved, and may commit. */
  function Look(s: State, id: Id, commits: bool): State
    requires id in s.requests
  {
    var r := s.requests[id];
    Note(s, id, if s.IsCurrent(id) then Approved else Concluded,
         s.IsCurrent(id) && commits, Committed(r.scope, r.sequence))
  }

  /** The call, or what came of its reply, has thrown: a request that is still current is excused. */
  function Blame(s: State, id: Id): State
    requires id in s.requests
  {
    s.(requests := At(s, id, if s.IsCurrent(id) then Excused else Concluded))
  }

  /** The toast of a request that was found current; whether it still is, is not asked again. */
  function Toast(s: State, id: Id, toasts: bool): State
    requires id in s.requests
  {
    var r := s.requests[id];
    Note(s, id, Concluded, toasts, Toasted(r.scope, r.sequence))
  }

  function Freed(inFlight: map<Scope, map<Key, Id>>, r: Request, id: Id): map<Scope, map<Key, Id>> {
    if r.scope in inFlight && r.key in inFlight[r.scope] && inFlight[r.scope][r.key] == id then
      var slots := inFlight[r.scope] - {r.key};
      if slots == map[] then inFlight - {r.scope} else inFlight[r.scope := slots]
    else
      inFlight
  }

  function Settle(s: State, id: Id): State
    requires id in s.requests
  {
    var r := s.requests[id];
    s.(inFlight := Freed(s.inFlight, r, id),
       busyCountByKey := Drop(s.busyCountByKey, r.key),
       requests := s.requests - {id})
  }

  /* ------------------------------ what they keep ------------------------------ */

  lemma StartKeepsSequence(s: State, key: Key, scope: Scope)
    requires s.Sequenced()
    ensures Start(s, key, scope).Sequenced()
  {
  }

  lemma StartLookup(s: State, key: Key, scope: Scope, sc: Scope, k: Key)
    ensures Start(s, key, scope).Slot(sc, k) == if sc == scope && k == key then Some(s.nextId) else s.Slot(sc, k)
  {
  }

  lemma StartKeepsSlots(s: State, key: Key, scope: Scope)
    requires s.Sequenced() && s.Slotted()
    ensures Start(s, key, scope).Slotted()
  {
    var t := Start(s, key, scope);
    forall sc, k ensures t.Slot(sc, k) == if sc == scope && k == key then Some(s.nextId) else s.Slot(sc, k) {
      StartLookup(s, key, scope, sc, k);
    }
    assert key in t.inFlight[scope];
    forall id <- t.requests | t.IsCurrent(id) ensures t.Slot(t.requests[id].scope, t.requests[id].key) == Some(id) {
      assert id != s.nextId ==> s.IsCurrent(id) && t.requests[id].scope != scope;
    }
  }

  lemma TallyUp(counts: map<Key, nat>, requests: map<Id, Request>, id: Id, r: Request)
    requires Tally(counts, requests) && id !in requests
    ensures Tally(Bump(counts, r.key), requests[id := r])
  {
    var after := requests[id := r];
    assert WithKey(after, r.key) == WithKey(requests, r.key) + {id};
    forall k | k != r.key ensures WithKey(after, k) == WithKey(requests, k) {
    }
  }

  lemma TallyDown(counts: map<Key, nat>, requests: map<Id, Request>, id: Id)
    requires Tally(counts, requests) && id in requests
    ensures Tally(Drop(counts, requests[id].key), requests - {id})
  {
    var key, after := requests[id].key, requests - {id};
    assert WithKey(after, key) == WithKey(requests, key) - {id};
    assert id in WithKey(requests, key);
    forall k | k != key ensures WithKey(after, k) == WithKey(requests, k) {
    }
  }

  lemma TallySame(counts: map<Key, nat>, requests: map<Id, Request>, id: Id, stage: Stage)
    requires Tally(counts, requests) && id in requests
    ensures Tally(counts, requests[id := requests[id].(stage := stage)])
  {
    var after := requests[id := requests[id].(stage := stage)];
    forall k ensures WithKey(after, k) == WithKey(requests, k) {
    }
  }

  lemma StartKeepsOrder(s: State, key: Key, scope: Scope)
    requires s.InOrder()
    ensures Start(s, key, scope).InOrder()
  {
  }

  /** Looking at a reply moves no slot. */
  lemma StageKeepsSlots(s: State, id: Id, stage: Stage, trace: seq<Trace>)
    requires s.Sequenced() && s.Slotted() && id in s.requests
    ensures var t := s.(requests := At(s, id, stage), trace := trace); t.Sequenced() && t.Slotted()
  {
    var t := s.(requests := At(s, id, stage), trace := trace);
    assert forall sc, k :: t.Slot(sc, k) == s.Slot(sc, k);
    assert forall other :: t.IsCurrent(other) == s.IsCurrent(other);
  }

  /** A commit goes to the end of its scope: its request is the newest, and had not committed before. */
  lemma LookKeepsOrder(s: State, id: Id, commits: bool)
    requires s.InOrder() && s.Sequenced() && id in s.requests && s.requests[id].stage == Running
    ensures Look(s, id, commits).InOrder()
  {
    var t := Look(s, id, commits);
    var r := s.requests[id];
    var says := s.IsCurrent(id) && commits;
    forall sc
      ensures CommitsOf(t.trace, sc) ==
        CommitsOf(s.trace, sc) + if says && sc == r.scope then [r.sequence] else []
    {
      CommitsExtend(s.trace, says, Committed(r.scope, r.sequence), sc);
    }
    forall sc, n | n in CommitsOf(t.trace, sc) ensures t.CommittedAt(sc, n) {
      assert n in CommitsOf(s.trace, sc) ==> s.CommittedAt(sc, n);
    }
    assert forall n <- CommitsOf(s.trace, r.scope) :: s.CommittedAt(r.scope, n) && n != r.sequence;
    forall sc ensures Increasing(CommitsOf(t.trace, sc)) {
      assert Increasing(CommitsOf(s.trace, sc));
      if says && sc == r.scope {
        IncreasingExtend(CommitsOf(s.trace, sc), r.sequence);
      } else {
        assert CommitsOf(t.trace, sc) == CommitsOf(s.trace, sc);
      }
    }
  }

  /** Neither failures nor toasts concern the order of commits. */
  lemma NoCommitKeepsOrder(s: State, id: Id, stage: Stage, says: bool)
    requires s.InOrder() && id in s.requests && stage != Running
    ensures var r := s.requests[id]; Note(s, id, stage, says, Toasted(r.scope, r.sequence)).InOrder()
  {
    var r := s.requests[id];
    var t := Note(s, id, stage, says, Toasted(r.scope, r.sequence));
    forall sc ensures CommitsOf(t.trace, sc) == CommitsOf(s.trace, sc) {
      CommitsExtend(s.trace, says, Toasted(r.scope, r.sequence), sc);
    }
    forall sc, n | n in CommitsOf(t.trace, sc) ensures t.CommittedAt(sc, n) {
      assert s.CommittedAt(sc, n);
    }
  }

  lemma FreedLookup(inFlight: map<Scope, map<Key, Id>>, r: Request, id: Id, scope: Scope, key: Key)
    ensures Lookup(Freed(inFlight, r, id), scope, key) ==
      if scope == r.scope && key == r.key && Lookup(inFlight, scope, key) == Some(id) then None
      else Lookup(inFlight, scope, key)
  {
    if scope == r.scope && scope in inFlight && key in inFlight[scope] && key != r.key {
      assert key in inFlight[scope] - {r.key};
    }
  }

  lemma SettleKeepsSlots(s: State, id: Id)
    requires s.Sequenced() && s.Slotted() && id in s.requests
    ensures Settle(s, id).Sequenced() && Settle(s, id).Slotted()
  {
    var t := Settle(s, id);
    var r := s.requests[id];
    forall sc, k ensures t.Slot(sc, k) == if s.Slot(sc, k) == Some(id) then None else s.Slot(sc, k) {
      FreedLookup(s.inFlight, r, id, sc, k);
      assert s.Slot(sc, k) == Some(id) ==> sc == r.scope && k == r.key;
    }
    forall other <- t.requests | t.IsCurrent(other)
      ensures t.Slot(t.requests[other].scope, t.requests[other].key) == Some(other)
    {
      assert s.IsCurrent(other);
    }
  }

  lemma SettleKeepsOrder(s: State, id: Id)
    requires s.InOrder() && id in s.requests
    ensures Settle(s, id).InOrder()
  {
  }

  /** When every request has settled, nothing is in flight and nothing is busy. */
  lemma NothingLeft(s: State)
    requires s.Valid() && s.requests == map[]
    ensures s.inFlight == map[] && s.busyCountByKey == map[]
  {
    if s.inFlight != map[] {
      SlotLeadsOn(s);
      assert false;
    }
    assert forall key :: WithKey(s.requests, key) == {};
  }

  lemma SlotLeadsOn(s: State)
    requires s.Slotted() && s.inFlight != map[]
    ensures s.requests != map[]
  {
    var scope :| scope in s.inFlight;
    var key :| key in s.inFlight[scope];
    assert s.Slot(scope, key).Some?;
  }

  /* ------------------------------ over runs ------------------------------ */

  /** What can happen to the runner, in any order: calls of `run`, and the stages of a request, between which
    * the callbacks of the caller may do as they like. */
  datatype Step =
    | Call(key: Key, scope: Scope)
    | Reply(id: Id, commits: bool)
    | Fail(id: Id)
    | Announce(id: Id, toasts: bool)   // the toast of a success
    | Complain(id: Id, toasts: bool)   // the toast of a failure
    | Finish(id: Id)

  predicate StageOf(s: State, id: Id, stage: Stage) {
    id in s.requests && s.requests[id].stage == stage
  }

  /** The call is for the intent of a request that is in flight and current. */
  predicate Joins(s: State, key: Key, scope: Scope) {
    s.Slot(scope, key).Some? && s.IsCurrent(s.Slot(scope, key).value)
  }

  /** The step asks whether `id` is current. */
  predicate Looks(s: State, step: Step, id: Id) {
    || (step == Reply(id, step.Reply? && step.commits) && StageOf(s, id, Running))
    || (step == Fail(id) && (StageOf(s, id, Running) || StageOf(s, id, Approved)))
  }

  /** The step toasts for `id`. */
  predicate Toasts(s: State, step: Step, id: Id) {
    || (step == Announce(id, true) && StageOf(s, id, Approved))
    || (step == Complain(id, true) && StageOf(s, id, Excused))
  }

  /** The state after `step`; a step that is not possible changes nothing. */
  function Apply(s: State, step: Step): State {
    match step
    case Call(key, scope) => if Joins(s, key, scope) then s else Start(s, key, scope)
    case Reply(id, commits) => if StageOf(s, id, Running) then Look(s, id, commits) else s
    case Fail(id) => if StageOf(s, id, Running) || StageOf(s, id, Approved) then Blame(s, id) else s
    case Announce(id, toasts) => if StageOf(s, id, Approved) then Toast(s, id, toasts) else s
    case Complain(id, toasts) => if StageOf(s, id, Excused) then Toast(s, id, toasts) else s
    case Finish(id) => if StageOf(s, id, Concluded) then Settle(s, id) else s
  }

  function Run(s: State, steps: seq<Step>): State {
    if steps == [] then s else Apply(Run(s, steps[..|steps| - 1]), steps[|steps| - 1])
  }

  const INITIAL := State(map[], map[], map[], map[], 0, [])

  lemma StartKeepsValid(s: State, key: Key, scope: Scope)
    requires s.Valid()
    ensures Start(s, key, scope).Valid()
  {
    StartKeepsSequence(s, key, scope);
    StartKeepsSlots(s, key, scope);
    TallyUp(s.busyCountByKey, s.requests, s.nextId, Request(key, scope, s.Newest(scope) + 1, Running));
    StartKeepsOrder(s, key, scope);
  }

  lemma NoteKeepsValid(s: State, id: Id, stage: Stage, says: bool, t: Trace)
    requires s.Valid() && id in s.requests && Note(s, id, stage, says, t).InOrder()
    ensures Note(s, id, stage, says, t).Valid()
  {
    StageKeepsSlots(s, id, stage, Say(s.trace, says, t));
    TallySame(s.busyCountByKey, s.requests, id, stage);
  }

  lemma LookKeepsValid(s: State, id: Id, commits: bool)
    requires s.Valid() && StageOf(s, id, Running)
    ensures Look(s, id, commits).Valid()
  {
    var r := s.requests[id];
    LookKeepsOrder(s, id, commits);
    NoteKeepsValid(s, id, if s.IsCurrent(id) then Approved else Concluded,
                   s.IsCurrent(id) && commits, Committed(r.scope, r.sequence));
  }

  lemma ToastKeepsValid(s: State, id: Id, stage: Stage, says: bool)
    requires s.Valid() && id in s.requests && stage != Running
    ensures var r := s.requests[id]; Note(s, id, stage, says, Toasted(r.scope, r.sequence)).Valid()
  {
    NoCommitKeepsOrder(s, id, stage, says);
    NoteKeepsValid(s, id, stage, says, Toasted(s.requests[id].scope, s.requests[id].sequence));
  }

  lemma SettleKeepsValid(s: State, id: Id)
    requires s.Valid() && id in s.requests
    ensures Settle(s, id).Valid()
  {
    SettleKeepsSlots(s, id);
    TallyDown(s.busyCountByKey, s.requests, id);
    SettleKeepsOrder(s, id);
  }

  lemma ApplyKeepsValid(s: State, step: Step)
    requires s.Valid()
    ensures Apply(s, step).Valid()
  {
    match step
    case Call(key, scope) => StartKeepsValid(s, key, scope);
    case Reply(id, commits) =>
      if StageOf(s, id, Running) {
        LookKeepsValid(s, id, commits);
      }
    case Fail(id) =>
      if id in s.requests {
        ToastKeepsValid(s, id, if s.IsCurrent(id) then Excused else Concluded, false);
      }
    case Announce(id, toasts) =>
      if id in s.requests {
        ToastKeepsValid(s, id, Concluded, toasts);
      }
    case Complain(id, toasts) =>
      if id in s.requests {
        ToastKeepsValid(s, id, Concluded, toasts);
      }
    case Finish(id) =>
      if id in s.requests {
        SettleKeepsValid(s, id);
      }
  }

  lemma {:induction false} RunKeepsValid(s: State, steps: seq<Step>)
    requires s.Valid()
    ensures Run(s, steps).Valid()
  {
    if steps == [] {
    } else {
      RunKeepsValid(s, steps[..|steps| - 1]);
      ApplyKeepsValid(Run(s, steps[..|steps| - 1]), steps[|steps| - 1]);
    }
  }

  lemma {:induction false} RunInTwo(s: State, first: seq<Step>, rest: seq<Step>)
    ensures Run(s, first + rest) == Run(Run(s, first), rest)
  {
    if rest == [] {
      assert first + rest == first;
    } else {
      assert (first + rest)[..|first + rest| - 1] == first + rest[..|rest| - 1];
      RunInTwo(s, first, rest[..|rest| - 1]);
    }
  }

  /* ------------------------------ when a request is superseded ------------------------------ */

  /** A step other than a call settles its request, or brings it to another stage, or does nothing. */
  lemma StepShape(s: State, step: Step) returns (stage: Stage, trace: seq<Trace>)
    requires !step.Call?
    ensures var v := Apply(s, step);
      || v == s
      || (step.id in s.requests &&
          (v == Settle(s, step.id) || v == s.(requests := At(s, step.id, stage), trace := trace)))
  {
    var v := Apply(s, step);
    trace := v.trace;
    stage := if step.id in v.requests then v.requests[step.id].stage else Running;
  }

  lemma ApplyKeepsSlots(s: State, step: Step)
    requires s.Sequenced() && s.Slotted()
    ensures Apply(s, step).Sequenced() && Apply(s, step).Slotted()
  {
    if step.Call? {
      StartKeepsSequence(s, step.key, step.scope);
      StartKeepsSlots(s, step.key, step.scope);
    } else {
      var stage, trace := StepShape(s, step);
      if step.id in s.requests {
        StageKeepsSlots(s, step.id, stage, trace);
        SettleKeepsSlots(s, step.id);
      }
    }
  }

  lemma {:induction false} RunKeepsSlots(s: State, steps: seq<Step>)
    requires s.Sequenced() && s.Slotted()
    ensures Run(s, steps).Sequenced() && Run(s, steps).Slotted()
  {
    if steps == [] {
    } else {
      RunKeepsSlots(s, steps[..|steps| - 1]);
      ApplyKeepsSlots(Run(s, steps[..|steps| - 1]), steps[|steps| - 1]);
    }
  }

  /** The step is a call for another intent of the scope. */
  predicate Supersedes(step: Step, key: Key, scope: Scope) {
    step.Call? && step.scope == scope && step.key != key
  }

  predicate SupersedesOne(steps: seq<Step>, key: Key, scope: Scope) {
    exists step <- steps :: Supersedes(step, key, scope)
  }

  lemma SupersedesExtend(steps: seq<Step>, last: Step, key: Key, scope: Scope)
    ensures SupersedesOne(steps + [last], key, scope) <==>
      SupersedesOne(steps, key, scope) || Supersedes(last, key, scope)
  {
    assert last in steps + [last];
  }

  predicate SameIntent(s: State, t: State, id: Id) {
    id in s.requests && id in t.requests && s.requests[id] == t.requests[id].(stage := s.requests[id].stage)
  }

  /** One step: an unsettled request stops being current exactly by a call for another intent. */
  lemma CurrentStep(s: State, step: Step, id: Id)
    requires s.Sequenced() && s.Slotted() && id in s.requests && id in Apply(s, step).requests
    ensures SameIntent(s, Apply(s, step), id)
    ensures Apply(s, step).IsCurrent(id) <==>
      s.IsCurrent(id) && !Supersedes(step, s.requests[id].key, s.requests[id].scope)
  {
    if step.Call? {
      CurrentCall(s, step.key, step.scope, id);
    } else {
      var stage, trace := StepShape(s, step);
    }
  }

  lemma CurrentCall(s: State, key: Key, scope: Scope, id: Id)
    requires s.Sequenced() && s.Slotted() && id in s.requests
    ensures SameIntent(s, Apply(s, Call(key, scope)), id)
    ensures Apply(s, Call(key, scope)).IsCurrent(id) <==>
      s.IsCurrent(id) && !Supersedes(Call(key, scope), s.requests[id].key, s.requests[id].scope)
  {
    var r := s.requests[id];
    if scope == r.scope && s.IsCurrent(id) {
      assert s.Slot(r.scope, r.key) == Some(id);
      assert Joins(s, key, scope) ==> s.Slot(r.scope, key) == Some(id);
    }
  }

  /** A request stays current exactly until another intent of its scope is called for, whatever else
    * happens; calls for its own intent join it. */
  lemma {:induction false} CurrentUntil(s: State, steps: seq<Step>, id: Id)
    requires s.Sequenced() && s.Slotted() && s.IsCurrent(id) && id in Run(s, steps).requests
    ensures SameIntent(s, Run(s, steps), id)
    ensures Run(s, steps).IsCurrent(id) <==> !SupersedesOne(steps, s.requests[id].key, s.requests[id].scope)
  {
    if steps == [] {
    } else {
      var before, last := steps[..|steps| - 1], steps[|steps| - 1];
      StaysUnsettled(s, before, last, id);
      CurrentUntil(s, before, id);
      RunKeepsSlots(s, before);
      CurrentStep(Run(s, before), last, id);
      assert steps == before + [last];
      SupersedesExtend(before, last, s.requests[id].key, s.requests[id].scope);
    }
  }

  /** Ids are not used twice. */
  lemma StaysUnsettled(s: State, before: seq<Step>, last: Step, id: Id)
    requires id < s.nextId && id in Apply(Run(s, before), last).requests
    ensures id in Run(s, before).requests
  {
    IdsGrow(s, before);
  }

  lemma {:induction false} IdsGrow(s: State, steps: seq<Step>)
    ensures s.nextId <= Run(s, steps).nextId
  {
    if steps == [] {
    } else {
      IdsGrow(s, steps[..|steps| - 1]);
    }
  }

  /** A toast is owed to a look that found its request current: the reply for the toast of a success, the
    * failure for that of a failure. */
  predicate LooksFor(s: State, look: Step, toast: Step, id: Id) {
    Looks(s, look, id) && s.IsCurrent(id) && (look.Reply? <==> toast.Announce?)
  }

  lemma {:induction false} FoundCurrent(steps: seq<Step>, id: Id, stage: Stage) returns (i: nat)
    requires (stage == Approved || stage == Excused) && StageOf(Run(INITIAL, steps), id, stage)
    ensures i < |steps| && (steps[i].Reply? <==> stage == Approved)
    ensures Looks(Run(INITIAL, steps[..i]), steps[i], id) && Run(INITIAL, steps[..i]).IsCurrent(id)
  {
    var before := steps[..|steps| - 1];
    if StageOf(Run(INITIAL, before), id, stage) {
      i := FoundCurrent(before, id, stage);
      assert before[..i] == steps[..i];
    } else {
      i := |steps| - 1;
    }
  }

  /** The exact condition: a toast is of a superseded request exactly if another intent of its scope was
    * called for between the look that allowed it and the toast, for successes and failures alike. */
  lemma SupersededToast(steps: seq<Step>, toast: Step, id: Id)
    requires Toasts(Run(INITIAL, steps), toast, id)
    ensures exists i: nat | i < |steps| :: LooksFor(Run(INITIAL, steps[..i]), steps[i], toast, id)
    ensures forall i: nat | i < |steps| && LooksFor(Run(INITIAL, steps[..i]), steps[i], toast, id) ::
      var s := Run(INITIAL, steps);
      !s.IsCurrent(id) <==> SupersedesOne(steps[i + 1..], s.requests[id].key, s.requests[id].scope)
  {
    var found := FoundCurrent(steps, id, if toast.Announce? then Approved else Excused);
    forall i: nat | i < |steps| && LooksFor(Run(INITIAL, steps[..i]), steps[i], toast, id)
      ensures var s := Run(INITIAL, steps);
        !s.IsCurrent(id) <==> SupersedesOne(steps[i + 1..], s.requests[id].key, s.requests[id].scope)
    {
      SinceLook(steps, i, id);
    }
  }

  lemma SinceLook(steps: seq<Step>, i: nat, id: Id)
    requires i < |steps| && Run(INITIAL, steps[..i]).IsCurrent(id) && Looks(Run(INITIAL, steps[..i]), steps[i], id)
    requires id in Run(INITIAL, steps).requests
    ensures var s := Run(INITIAL, steps);
      !s.IsCurrent(id) <==> SupersedesOne(steps[i + 1..], s.requests[id].key, s.requests[id].scope)
  {
    assert steps[..i + 1][..i] == steps[..i];
    assert steps == steps[..i + 1] + steps[i + 1..];
    RunInTwo(INITIAL, steps[..i + 1], steps[i + 1..]);
    RunKeepsSlots(INITIAL, steps[..i]);
    AfterLook(Run(INITIAL, steps[..i]), steps[i], steps[i + 1..], id);
  }

  lemma AfterLook(s: State, look: Step, rest: seq<Step>, id: Id)
    requires s.Sequenced() && s.Slotted() && s.IsCurrent(id) && Looks(s, look, id)
    requires id in Run(Apply(s, look), rest).requests
    ensures var t := Run(Apply(s, look), rest);
      !t.IsCurrent(id) <==> SupersedesOne(rest, t.requests[id].key, t.requests[id].scope)
  {
    LookKeepsCurrent(s, look, id);
    ApplyKeepsSlots(s, look);
    CurrentUntil(Apply(s, look), rest, id);
  }

  lemma LookKeepsCurrent(s: State, look: Step, id: Id)
    requires s.IsCurrent(id) && Looks(s, look, id)
    ensures Apply(s, look).IsCurrent(id)
  {
  }

  /* ------------------------------ what a superseded request does not do ------------------------------ */

  /** Nobody has anything more to say of request `n` of the scope. */
  ghost predicate Silenced(s: State, scope: Scope, n: nat) {
    && n <= s.Newest(scope)
    && forall id <- s.requests | s.requests[id].scope == scope && s.requests[id].sequence == n ::
         s.requests[id].stage == Concluded
  }

  /** What was seen of request `n` of the scope. */
  function Seen(trace: seq<Trace>, scope: Scope, n: nat): seq<Trace> {
    if trace == [] then
      []
    else
      var last := trace[|trace| - 1];
      Seen(trace[..|trace| - 1], scope, n) + if last.scope == scope && last.sequence == n then [last] else []
  }

  lemma SeenExtend(trace: seq<Trace>, says: bool, t: Trace, scope: Scope, n: nat)
    ensures Seen(Say(trace, says, t), scope, n) ==
      Seen(trace, scope, n) + if says && t.scope == scope && t.sequence == n then [t] else []
  {
  }

  /** What is seen of a step: a commit exactly if its reply finds the request current, a toast exactly if the
    * request may toast, and nothing else. */
  lemma SeenExactly(s: State, step: Step)
    ensures Apply(s, step).trace == s.trace +
      match step
      case Reply(id, commits) =>
        if StageOf(s, id, Running) && s.IsCurrent(id) && commits
        then [Committed(s.requests[id].scope, s.requests[id].sequence)] else []
      case Announce(id, toasts) =>
        if StageOf(s, id, Approved) && toasts then [Toasted(s.requests[id].scope, s.requests[id].sequence)] else []
      case Complain(id, toasts) =>
        if StageOf(s, id, Excused) && toasts then [Toasted(s.requests[id].scope, s.requests[id].sequence)] else []
      case _ => []
  {
  }

  /** How a request goes on: a look brings it to the toast that it may show, or to its end, and a toast or an end
    * lets it settle. */
  lemma GoesOn(s: State, step: Step, id: Id)
    requires !step.Call? && step.id == id && id in s.requests
    ensures var v := Apply(s, step);
      && (step.Reply? && StageOf(s, id, Running) ==>
           StageOf(v, id, if s.IsCurrent(id) then Approved else Concluded))
      && (step.Fail? && (StageOf(s, id, Running) || StageOf(s, id, Approved)) ==>
           StageOf(v, id, if s.IsCurrent(id) then Excused else Concluded))
      && (step.Announce? && StageOf(s, id, Approved) ==> StageOf(v, id, Concluded))
      && (step.Complain? && StageOf(s, id, Excused) ==> StageOf(v, id, Concluded))
      && (step.Finish? && StageOf(s, id, Concluded) ==> id !in v.requests)
  {
  }

  /** The stage of the request of a step, after it. */
  function StageAfter(s: State, step: Step): Stage
    requires !step.Call?
  {
    var v := Apply(s, step);
    if step.id in v.requests then v.requests[step.id].stage else Concluded
  }

  /** What a request says on its way from one stage to another. */
  predicate Speaks(before: Stage, t: Trace, after: Stage) {
    if t.Committed? then before == Running && after == Approved
    else (before == Approved || before == Excused) && after == Concluded
  }

  lemma TraceStep(s: State, step: Step) returns (says: bool, t: Trace)
    ensures Apply(s, step).trace == Say(s.trace, says, t)
    ensures says ==> !step.Call? && step.id in s.requests && t.scope == s.requests[step.id].scope
    ensures says ==> t.sequence == s.requests[step.id].sequence
    ensures says ==> Speaks(s.requests[step.id].stage, t, StageAfter(s, step))
  {
    var v := Apply(s, step);
    says := v.trace != s.trace;
    t := if says then v.trace[|v.trace| - 1] else Committed("", 0);
  }

  /** A step is seen only of its own request. */
  lemma SeenStep(s: State, step: Step, scope: Scope, n: nat)
    requires step.Call? || step.id !in s.requests ||
             var r := s.requests[step.id]; r.stage == Concluded || r.scope != scope || r.sequence != n
    ensures Seen(Apply(s, step).trace, scope, n) == Seen(s.trace, scope, n)
  {
    var says, t := TraceStep(s, step);
    SeenExtend(s.trace, says, t, scope, n);
  }

  lemma SilencedStep(s: State, step: Step, scope: Scope, n: nat)
    requires Silenced(s, scope, n)
    ensures Silenced(Apply(s, step), scope, n)
    ensures Seen(Apply(s, step).trace, scope, n) == Seen(s.trace, scope, n)
  {
    SeenStep(s, step, scope, n);
  }

  lemma {:induction false} SilencedForever(s: State, steps: seq<Step>, scope: Scope, n: nat)
    requires Silenced(s, scope, n)
    ensures Silenced(Run(s, steps), scope, n)
    ensures Seen(Run(s, steps).trace, scope, n) == Seen(s.trace, scope, n)
  {
    if steps == [] {
    } else {
      SilencedForever(s, steps[..|steps| - 1], scope, n);
      SilencedStep(Run(s, steps[..|steps| - 1]), steps[|steps| - 1], scope, n);
    }
  }

  /** What can have been seen of a request at a stage: nothing before its reply is there, and in the end at
    * most one commit and then at most one toast. */
  ghost predicate Tale(seen: seq<Trace>, scope: Scope, n: nat, stage: Stage) {
    || seen == []
    || (stage != Running && seen == [Committed(scope, n)])
    || (stage == Concluded && (seen == [Toasted(scope, n)] || seen == [Committed(scope, n), Toasted(scope, n)]))
  }

  ghost predicate Told(s: State) {
    && (forall id <- s.requests :: var r := s.requests[id];
         Tale(Seen(s.trace, r.scope, r.sequence), r.scope, r.sequence, r.stage))
    && forall scope, n: nat ::
         if n > s.Newest(scope) then Seen(s.trace, scope, n) == []
         else Tale(Seen(s.trace, scope, n), scope, n, Concluded)
  }

  /** The own request of a step: what is seen of it fits the stage it comes to. */
  lemma OwnTale(s: State, step: Step)
    requires !step.Call? && step.id in s.requests
    requires var r := s.requests[step.id]; Tale(Seen(s.trace, r.scope, r.sequence), r.scope, r.sequence, r.stage)
    ensures var r, v := s.requests[step.id], Apply(s, step);
      Tale(Seen(v.trace, r.scope, r.sequence), r.scope, r.sequence, StageAfter(s, step))
  {
    var r := s.requests[step.id];
    var says, t := TraceStep(s, step);
    SeenExtend(s.trace, says, t, r.scope, r.sequence);
    StagesGoOn(s, step);
  }

  /** No step brings a request back to an earlier stage. */
  lemma StagesGoOn(s: State, step: Step)
    requires !step.Call? && step.id in s.requests
    ensures StageAfter(s, step) == s.requests[step.id].stage || StageAfter(s, step) == Concluded ||
            (s.requests[step.id].stage != Concluded && StageAfter(s, step) != Running)
  {
  }

  lemma ToldStep(s: State, step: Step)
    requires Told(s) && s.Sequenced()
    ensures Told(Apply(s, step))
  {
    var v := Apply(s, step);
    ApplyKeepsSequence(s, step);
    if !step.Call? && step.id in s.requests {
      OwnTale(s, step);
    }
    forall scope, n: nat
      ensures if n > v.Newest(scope) then Seen(v.trace, scope, n) == []
              else Tale(Seen(v.trace, scope, n), scope, n, Concluded)
    {
      ToldOf(s, step, scope, n);
    }
    forall id | id in v.requests
      ensures var r := v.requests[id]; Tale(Seen(v.trace, r.scope, r.sequence), r.scope, r.sequence, r.stage)
    {
      StageKept(s, step, id);
      ToldOf(s, step, v.requests[id].scope, v.requests[id].sequence);
    }
  }

  predicate Own(s: State, step: Step, scope: Scope, n: nat) {
    !step.Call? && step.id in s.requests && s.requests[step.id].scope == scope && s.requests[step.id].sequence == n
  }

  lemma ToldOf(s: State, step: Step, scope: Scope, n: nat)
    requires Told(s) && s.Sequenced()
    ensures !Own(s, step, scope, n) ==> Seen(Apply(s, step).trace, scope, n) == Seen(s.trace, scope, n)
    ensures Own(s, step, scope, n) ==>
      n <= s.Newest(scope) && Tale(Seen(Apply(s, step).trace, scope, n), scope, n, Concluded)
  {
    if Own(s, step, scope, n) {
      OwnTale(s, step);
    } else {
      SeenStep(s, step, scope, n);
    }
  }

  /** A step changes the stage of its own request only; a new request is the newest of its scope. */
  lemma StageKept(s: State, step: Step, id: Id)
    requires s.Sequenced() && id in Apply(s, step).requests
    ensures var r := Apply(s, step).requests[id];
      || r.sequence > s.Newest(r.scope)
      || (!step.Call? && step.id == id)
      || (id in s.requests && s.requests[id] == r && !Own(s, step, r.scope, r.sequence))
  {
  }

  lemma ApplyKeepsSequence(s: State, step: Step)
    requires s.Sequenced()
    ensures Apply(s, step).Sequenced()
    ensures forall scope :: s.Newest(scope) <= Apply(s, step).Newest(scope)
  {
    if step.Call? {
      StartKeepsSequence(s, step.key, step.scope);
    } else {
      var stage, trace := StepShape(s, step);
      if step.id in s.requests {
        StageKeepsSequence(s, step.id, stage, trace);
        SettleKeepsSequence(s, step.id);
      }
    }
  }

  lemma StageKeepsSequence(s: State, id: Id, stage: Stage, trace: seq<Trace>)
    requires s.Sequenced() && id in s.requests
    ensures s.(requests := At(s, id, stage), trace := trace).Sequenced()
  {
  }

  lemma SettleKeepsSequence(s: State, id: Id)
    requires s.Sequenced() && id in s.requests
    ensures Settle(s, id).Sequenced()
  {
  }

  lemma {:induction false} ToldOverRuns(steps: seq<Step>)
    ensures Told(Run(INITIAL, steps))
  {
    if steps == [] {
    } else {
      ToldOverRuns(steps[..|steps| - 1]);
      RunKeepsSlots(INITIAL, steps[..|steps| - 1]);
      ToldStep(Run(INITIAL, steps[..|steps| - 1]), steps[|steps| - 1]);
    }
  }

  /** A request that is superseded when its reply or its failure is looked at: from then on nothing is seen
    * of it, and if it had not committed before, nothing ever is. */
  lemma SupersededIsSilent(steps: seq<Step>, look: Step, later: seq<Step>, id: Id)
    requires Looks(Run(INITIAL, steps), look, id) && !Run(INITIAL, steps).IsCurrent(id)
    ensures var s := Run(INITIAL, steps);
      var r := s.requests[id];
      && Seen(Run(INITIAL, steps + [look] + later).trace, r.scope, r.sequence) == Seen(s.trace, r.scope, r.sequence)
      && (r.stage == Running ==> Seen(s.trace, r.scope, r.sequence) == [])
  {
    var s := Run(INITIAL, steps);
    var r := s.requests[id];
    RunKeepsValid(INITIAL, steps);
    ToldOverRuns(steps);
    assert (steps + [look])[..|steps|] == steps;
    assert Silenced(Apply(s, look), r.scope, r.sequence);
    SilencedForever(Apply(s, look), later, r.scope, r.sequence);
    RunInTwo(INITIAL, steps + [look], later);
  }

  /** Both kinds of superseded toasts happen: what the caller does with the reply, or with the failure, calls
    * for another intent of the scope before the toast. */
  const SUCCESS: seq<Step> := [Call("a", "s"), Reply(0, true), Call("b", "s"), Announce(0, true)]
  const FAILURE: seq<Step> := [Call("a", "s"), Fail(0), Call("b", "s"), Complain(0, true)]

  lemma SupersededSuccess()
    ensures Toasts(Run(INITIAL, SUCCESS[..3]), SUCCESS[3], 0) && !Run(INITIAL, SUCCESS[..3]).IsCurrent(0)
    ensures Run(INITIAL, SUCCESS).trace == [Committed("s", 1), Toasted("s", 1)]
  {
    FourSteps(SUCCESS);
  }

  lemma SupersededFailure()
    ensures Toasts(Run(INITIAL, FAILURE[..3]), FAILURE[3], 0) && !Run(INITIAL, FAILURE[..3]).IsCurrent(0)
    ensures Run(INITIAL, FAILURE).trace == [Toasted("s", 1)]
  {
    FourSteps(FAILURE);
  }

  lemma FourSteps(steps: seq<Step>)
    requires |steps| == 4
    ensures Run(INITIAL, steps[..3]) == Apply(Apply(Apply(INITIAL, steps[0]), steps[1]), steps[2])
    ensures Run(INITIAL, steps) == Apply(Run(INITIAL, steps[..3]), steps[3])
  {
    Extend(INITIAL, [], steps[0], steps[..1]);
    Extend(INITIAL, steps[..1], steps[1], steps[..2]);
    Extend(INITIAL, steps[..2], steps[2], steps[..3]);
    Extend(INITIAL, steps[..3], steps[3], steps);
  }

  lemma Extend(s: State, before: seq<Step>, step: Step, after: seq<Step>)
    requires after == before + [step]
    ensures Run(s, after) == Apply(Run(s, before), step)
  {
    assert after[..|after| - 1] == before;
  }

  /* ------------------------------ the runner ------------------------------ */

  class Runner {
    var inFlight: map<Scope, map<Key, Id>>
    var busyCountByKey: map<Key, nat>
    var newestByScope: map<Scope, nat>
    var requests: map<Id, Request>
    var nextId: Id

    /** The busy keys that were last announced. */
    var announced: set<Key>

    ghost var trace: seq<Trace>

    constructor ()
      ensures Valid() && View() == INITIAL
    {
      inFlight, busyCountByKey, newestByScope := map[], map[], map[];
      requests, nextId, announced, trace := map[], 0, {}, [];
    }

    ghost function View(): State
      reads this
    {
      State(inFlight, busyCountByKey, newestByScope, requests, nextId, trace)
    }

    ghost predicate Valid()
      reads this
    {
      View().Valid() && announced == busyCountByKey.Keys
    }

    function Newest(scope: Scope): (n: nat)
      reads this
      ensures n == View().Newest(scope)
    {
      if scope in newestByScope then newestByScope[scope] else 0
    }

    predicate IsCurrent(id: Id)
      reads this
      ensures IsCurrent(id) <==> View().IsCurrent(id)
    {
      id in requests && Newest(requests[id].scope) == requests[id].sequence
    }

    method StartBusy(key: Key)
      requires announced == busyCountByKey.Keys
      modifies this`busyCountByKey, this`announced
      ensures announced == busyCountByKey.Keys && busyCountByKey == Bump(old(busyCountByKey), key)
    {
      var count := if key in busyCountByKey then busyCountByKey[key] else 0;
      busyCountByKey := busyCountByKey[key := count + 1];
      if count == 0 {
        announced := busyCountByKey.Keys;
      }
      assert count != 0 ==> busyCountByKey.Keys == old(busyCountByKey).Keys;
    }

    method FinishBusy(key: Key)
      requires announced == busyCountByKey.Keys
      modifies this`busyCountByKey, this`announced
      ensures announced == busyCountByKey.Keys && busyCountByKey == Drop(old(busyCountByKey), key)
    {
      if key !in busyCountByKey {
        return;
      }
      if busyCountByKey[key] > 1 {
        busyCountByKey := busyCountByKey[key := busyCountByKey[key] - 1];
        return;
      }
      busyCountByKey := busyCountByKey - {key};
      announced := busyCountByKey.Keys;
    }

    /** Joins the request that is in flight for the same intent and still current, or starts one that
      * supersedes everything else in its scope. */
    method Run(key: Key, scope: Scope) returns (id: Id)
      requires Valid()
      modifies this
      ensures Valid()
      ensures IsCurrent(id) && requests[id].key == key && requests[id].scope == scope
      ensures View() == Apply(old(View()), Call(key, scope))
      ensures if exists other ::
                old(IsCurrent(other)) && old(requests)[other].key == key && old(requests)[other].scope == scope
              then View() == old(View()) else id == old(nextId) && View() == Start(old(View()), key, scope)
    {
      ghost var s := View();
      var existing := None;
      if scope in inFlight && key in inFlight[scope] {
        existing := Some(inFlight[scope][key]);
      }
      assert existing == s.Slot(scope, key);
      if existing.Some? && IsCurrent(existing.value) {
        return existing.value;
      }
      assert forall other | s.IsCurrent(other) && s.requests[other].key == key && s.requests[other].scope == scope ::
        s.Slot(scope, key) == Some(other);
      id := nextId;
      Launch(key, scope);
      StartKeepsValid(s, key, scope);
    }

    method Launch(key: Key, scope: Scope)
      requires announced == busyCountByKey.Keys
      modifies this
      ensures View() == Start(old(View()), key, scope) && announced == busyCountByKey.Keys
    {
      var id, sequence := nextId, Newest(scope) + 1;
      newestByScope := newestByScope[scope := sequence];
      requests := requests[id := Request(key, scope, sequence, Running)];
      nextId := nextId + 1;
      var slots := if scope in inFlight then inFlight[scope] else map[];
      inFlight := inFlight[scope := slots[key := id]];
      StartBusy(key);
    }

    /** The reply has arrived: it is committed only if the request is still the newest. */
    method Resolve(id: Id, commits: bool) returns (v: Verdict)
      requires Valid() && StageOf(View(), id, Running)
      modifies this`requests, this`trace
      ensures Valid() && View() == Apply(old(View()), Reply(id, commits))
      ensures v == if old(IsCurrent(id)) then Completed else Superseded
      ensures v == Superseded ==> trace == old(trace) && requests[id].stage == Concluded
    {
      v := if IsCurrent(id) then Completed else Superseded;
      LookKeepsValid(View(), id, commits);
      if v == Completed && commits {
        trace := trace + [Committed(requests[id].scope, requests[id].sequence)];
      }
      requests := requests[id := requests[id].(stage := if v == Completed then Approved else Concluded)];
    }

    /** The commit has gone well: the success is toasted. */
    method ToastSuccess(id: Id, toasts: bool)
      requires Valid() && StageOf(View(), id, Approved)
      modifies this`requests, this`trace
      ensures Valid() && View() == Apply(old(View()), Announce(id, toasts))
    {
      ToastKeepsValid(View(), id, Concluded, toasts);
      Conclude(id, toasts);
    }

    /** The call, or what came of its reply, has thrown: its failure counts only if the request is still the
      * newest. */
    method Reject(id: Id) returns (v: Verdict)
      requires Valid() && (StageOf(View(), id, Running) || StageOf(View(), id, Approved))
      modifies this`requests
      ensures Valid() && View() == Apply(old(View()), Fail(id))
      ensures v == if old(IsCurrent(id)) then Completed else Superseded
      ensures v == Superseded ==> requests[id].stage == Concluded
    {
      v := if IsCurrent(id) then Completed else Superseded;
      ToastKeepsValid(View(), id, if v == Completed then Excused else Concluded, false);
      requests := requests[id := requests[id].(stage := if v == Completed then Excused else Concluded)];
    }

    /** The caller has had its say on the failure: it is toasted. */
    method ToastFailure(id: Id, toasts: bool)
      requires Valid() && StageOf(View(), id, Excused)
      modifies this`requests, this`trace
      ensures Valid() && View() == Apply(old(View()), Complain(id, toasts))
    {
      ToastKeepsValid(View(), id, Concluded, toasts);
      Conclude(id, toasts);
    }

    method Conclude(id: Id, toasts: bool)
      requires id in requests
      modifies this`requests, this`trace
      ensures View() == Toast(old(View()), id, toasts)
    {
      if toasts {
        trace := trace + [Toasted(requests[id].scope, requests[id].sequence)];
      }
      requests := requests[id := requests[id].(stage := Concluded)];
    }

    /** The promise settles: the slot goes only if it is still this request's. */
    method Finish(id: Id)
      requires Valid() && StageOf(View(), id, Concluded)
      modifies this
      ensures Valid() && View() == Apply(old(View()), Step.Finish(id))
      ensures requests == map[] ==> inFlight == map[] && busyCountByKey == map[] && announced == {}
    {
      ghost var s := View();
      Release(id);
      SettleKeepsValid(s, id);
      if requests == map[] {
        NothingLeft(View());
      }
    }

    method Release(id: Id)
      requires id in requests && announced == busyCountByKey.Keys
      modifies this
      ensures View() == Settle(old(View()), id) && announced == busyCountByKey.Keys
    {
      var request := requests[id];
      if request.scope in inFlight {
        var slots := inFlight[request.scope];
        if request.key in slots && slots[request.key] == id {
          slots := slots - {request.key};
          inFlight := if slots == map[] then inFlight - {request.scope} else inFlight[request.scope := slots];
        }
      }
      requests := requests - {id};
      FinishBusy(request.key);
    }
  }
}
