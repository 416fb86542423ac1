/** "Click again to confirm": one phase per destructive control, and timers that may fire late. */
module Confirm {
  type Target = string

  /** Operation ids are minted in sequence. */
  type OperationId = nat

  datatype Phase = Idle | Confirming(operationId: OperationId, expiresAt: int) | Running(operationId: OperationId)

  datatype Decision =
    | Armed(operationId: OperationId, expiresAt: int)
    | Confirmed(operationId: OperationId)
    | Busy(operationId: OperationId)

  /** What a click means; `minted` is the id a fresh arming would get. */
  function DecideConfirm(phase: Phase, now: int, ttl: int, minted: OperationId): Decision {
    match phase
    case Running(op) => Busy(op)
    case Confirming(op, expiresAt) => if now < expiresAt then Confirmed(op) else Armed(minted, now + ttl)
    case Idle => Armed(minted, now + ttl)
  }

  datatype Timer = Timer(target: Target, operationId: OperationId)

  /** A confirmation that went through. */
  datatype Confirmation = Confirmation(target: Target, operationId: OperationId, at: int)

  /** What an operation was armed for, and until when. */
  datatype Arming = Arming(target: Target, expiresAt: int)

  /** Every confirmation is of an operation armed on that target, inside its window, and is the only one
    * of its operation. */
  ghost predicate Proper(confirmations: seq<Confirmation>, armings: map<OperationId, Arming>) {
    && (forall c <- confirmations ::
          c.operationId in armings && armings[c.operationId].target == c.target &&
          c.at < armings[c.operationId].expiresAt)
    && (forall i, j | 0 <= i < j < |confirmations| :: confirmations[i].operationId != confirmations[j].operationId)
  }

  /** A phase that is consistent with what has happened. */
  ghost predicate Backed(t: Target, p: Phase, confirmations: seq<Confirmation>, armings: map<OperationId, Arming>) {
    match p
    case Idle => false
    case Confirming(op, expiresAt) =>
      op in armings && armings[op] == Arming(t, expiresAt) && forall c <- confirmations :: c.operationId != op
    case Running(op) => exists c <- confirmations :: c.operationId == op && c.target == t
  }

  lemma Confirms(t: Target, op: OperationId, now: int, expiresAt: int, confirmations: seq<Confirmation>,
                 armings: map<OperationId, Arming>)
    requires Proper(confirmations, armings) && now < expiresAt
    requires Backed(t, Confirming(op, expiresAt), confirmations, armings)
    ensures Proper(confirmations + [Confirmation(t, op, now)], armings)
    ensures Backed(t, Running(op), confirmations + [Confirmation(t, op, now)], armings)
  {
  }

  /** Another operation's confirmation does not touch a phase. */
  lemma StillBacked(t: Target, p: Phase, c: Confirmation, confirmations: seq<Confirmation>,
                    armings: map<OperationId, Arming>)
    requires Backed(t, p, confirmations, armings)
    requires p.Confirming? ==> p.operationId != c.operationId
    ensures Backed(t, p, confirmations + [c], armings)
  {
  }

  class ConfirmController {
    var sequence: nat
    var disposed: bool
    var phases: map<Target, Phase>
    var timers: set<Timer>

    ghost var armings: map<OperationId, Arming>
    ghost var confirmations: seq<Confirmation>

    ghost predicate Valid()
      reads this
    {
      && (forall op <- armings :: 1 <= op <= sequence)
      && (forall t <- phases :: Backed(t, phases[t], confirmations, armings))
      && Proper(confirmations, armings)
      && (forall timer <- timers :: timer.operationId in armings && armings[timer.operationId].target == timer.target)
    }

    constructor ()
      ensures Valid() && !disposed && sequence == 0 && phases == map[] && timers == {} && confirmations == []
    {
      sequence, disposed, phases, timers, armings, confirmations := 0, false, map[], {}, map[], [];
    }

    function PhaseOf(t: Target): Phase
      reads this
    {
      if t in phases then phases[t] else Idle
    }

    /** One click: arms, confirms what was armed, or is ignored while the operation runs. */
    method Request(t: Target, ttl: int, now: int) returns (d: Decision)
      requires Valid()
      modifies this
      ensures Valid()
      ensures d == match old(PhaseOf(t))
        case Idle => Armed(old(sequence) + 1, now + ttl)
        case Confirming(op, expiresAt) => if now < expiresAt then Confirmed(op) else Armed(old(sequence) + 1, now + ttl)
        case Running(op) => Busy(op)
      ensures sequence == old(sequence) + if d.Armed? then 1 else 0
      ensures d.Busy? ==> phases == old(phases) && confirmations == old(confirmations)
      ensures d.Confirmed? ==>
        && phases == old(phases)[t := Running(d.operationId)]
        && confirmations == old(confirmations) + [Confirmation(t, d.operationId, now)]
      ensures d.Armed? ==>
        && d.operationId !in old(armings) && armings == old(armings)[d.operationId := Arming(t, d.expiresAt)]
        && phases == old(phases)[t := Confirming(d.operationId, d.expiresAt)] && confirmations == old(confirmations)
        && timers == old(timers) + (if disposed then {} else {Timer(t, d.operationId)})
      ensures !d.Armed? ==> armings == old(armings) && timers == old(timers)
    {
      d := DecideConfirm(PhaseOf(t), now, ttl, sequence + 1);
      match d {
        case Busy(_) =>
        case Confirmed(op) => CommitRun(t, op, now);
        case Armed(op, expiresAt) => Arm(t, op, expiresAt);
      }
    }

    /** The second click: the armed operation runs, under the id it was armed with, on the target it was
      * armed for, inside its window, and for the first time. */
    method CommitRun(t: Target, op: OperationId, now: int)
      requires Valid() && PhaseOf(t).Confirming? && PhaseOf(t).operationId == op && now < PhaseOf(t).expiresAt
      modifies this`phases, this`confirmations
      ensures Valid()
      ensures phases == old(phases)[t := Running(op)]
      ensures confirmations == old(confirmations) + [Confirmation(t, op, now)]
      ensures op in armings && armings[op].target == t && now < armings[op].expiresAt
      ensures forall c <- old(confirmations) :: c.operationId != op
    {
      var c := Confirmation(t, op, now);
      Confirms(t, op, now, phases[t].expiresAt, confirmations, armings);
      forall other | other in phases && other != t ensures Backed(other, phases[other], confirmations + [c], armings) {
        assert Backed(other, phases[other], confirmations, armings);
        StillBacked(other, phases[other], c, confirmations, armings);
      }
      confirmations := confirmations + [c];
      phases := phases[t := Running(op)];
    }

    /** The first click: a fresh operation is armed, with a timer of its own. */
    method Arm(t: Target, op: OperationId, expiresAt: int)
      requires Valid() && op == sequence + 1 && !PhaseOf(t).Running?
      modifies this`sequence, this`armings, this`phases, this`timers
      ensures Valid()
      ensures sequence == op
      ensures op !in old(armings) && armings == old(armings)[op := Arming(t, expiresAt)]
      ensures phases == old(phases)[t := Confirming(op, expiresAt)]
      ensures timers == old(timers) + (if disposed then {} else {Timer(t, op)})
    {
      sequence := op;
      armings := armings[op := Arming(t, expiresAt)];
      phases := phases[t := Confirming(op, expiresAt)];
      if !disposed {
        timers := timers + {Timer(t, op)};
      }
    }

    /** A timer fires, however late: it disarms the operation it was set for, or nothing. */
    method Fire(timer: Timer) returns (changed: bool)
      requires Valid() && timer in timers
      modifies this`timers, this`phases
      ensures Valid() && timers == old(timers) - {timer}
      ensures changed <==>
        old(PhaseOf(timer.target)) == Confirming(timer.operationId, armings[timer.operationId].expiresAt)
      ensures phases == if changed then old(phases) - {timer.target} else old(phases)
    {
      timers := timers - {timer};
      var phase := PhaseOf(timer.target);
      changed := phase.Confirming? && phase.operationId == timer.operationId;
      if changed {
        assert Backed(timer.target, phase, confirmations, armings);
        phases := phases - {timer.target};
      }
    }

    /** Ends a running operation, if it is the one that is running. */
    method Settle(t: Target, op: OperationId)
      requires Valid()
      modifies this`phases
      ensures Valid()
      ensures phases == if old(PhaseOf(t)) == Running(op) then old(phases) - {t} else old(phases)
    {
      if PhaseOf(t) == Running(op) {
        phases := phases - {t};
      }
    }

    /** Drops every armed confirmation under a prefix; running operations are left alone. */
    method Clear(prefix: string) returns (changed: bool)
      requires Valid()
      modifies this`phases
      ensures Valid()
      ensures phases == map t | t in old(phases) && (!(prefix <= t) || old(phases)[t].Running?) :: old(phases)[t]
      ensures changed <==> phases != old(phases)
    {
      changed := false;
      ghost var before := phases;
      var todo := phases.Keys;
      while todo != {}
        invariant forall t :: t in phases <==> t in before && (t in todo || !(prefix <= t) || before[t].Running?)
        invariant forall t <- phases :: phases[t] == before[t]
        invariant changed <==> phases != before
        decreases todo
      {
        var t :| t in todo;
        todo := todo - {t};
        if t !in phases || !(prefix <= t) || phases[t].Running? {
          continue;
        }
        phases := phases - {t};
        changed := true;
        assert t in before && t !in phases;
      }
    }

    /** Cancels every timer; what is armed stays armed until its window has passed. */
    method Dispose()
      requires Valid()
      modifies this`disposed, this`timers
      ensures Valid() && disposed && timers == {}
    {
      disposed, timers := true, {};
    }
  }

  /** Two clicks on a control that is not running and has nothing armed: the second one confirms what the first
    * has armed if it comes within the window, and arms anew if it does not. */
  method TwoClicks(c: ConfirmController, t: Target, ttl: int, now: int, later: int)
    returns (first: Decision, second: Decision)
    requires c.Valid() && !c.PhaseOf(t).Running? && (c.PhaseOf(t).Confirming? ==> c.PhaseOf(t).expiresAt <= now)
    modifies c
    ensures c.Valid() && first == Armed(old(c.sequence) + 1, now + ttl)
    ensures later < now + ttl ==>
      && second == Confirmed(old(c.sequence) + 1) && c.PhaseOf(t) == Running(old(c.sequence) + 1)
      && c.confirmations == old(c.confirmations) + [Confirmation(t, old(c.sequence) + 1, later)]
    ensures later >= now + ttl ==>
      && second == Armed(old(c.sequence) + 2, later + ttl) && c.confirmations == old(c.confirmations)
      && c.PhaseOf(t) == Confirming(old(c.sequence) + 2, later + ttl)
  {
    first := c.Request(t, ttl, now);
    second := c.Request(t, ttl, later);
  }
}
