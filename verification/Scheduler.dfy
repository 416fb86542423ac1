/** The bounded demo scheduler: at most three transfers at a time, and a freed slot goes to the oldest row. */
module Scheduler {
  import opened Wrappers

  const MAX_CONCURRENT_TRANSFERS: nat := 3

  type Key = string

  datatype TransferState = Queued | Preparing | Running | Succeeded | Failed

  datatype Transfer = Transfer(key: Key, state: TransferState, sentBytes: nat, error: Option<string>, retryable: bool)

  predicate IsActive(t: Transfer) {
    t.state == Preparing || t.state == Running
  }

  predicate IsQueued(t: Transfer) {
    t.state == Queued
  }

  function Count(ts: seq<Transfer>, p: Transfer -> bool): nat {
    if ts == [] then 0 else Count(ts[1..], p) + if p(ts[0]) then 1 else 0
  }

  function Active(ts: seq<Transfer>): nat {
    Count(ts, IsActive)
  }

  function Waiting(ts: seq<Transfer>): nat {
    Count(ts, IsQueued)
  }

  lemma {:induction false} CountUpdate(ts: seq<Transfer>, p: Transfer -> bool, i: nat, t: Transfer)
    requires i < |ts|
    ensures Count(ts[i := t], p) == Count(ts, p) - (if p(ts[i]) then 1 else 0) + (if p(t) then 1 else 0)
  {
    if i == 0 {
      assert ts[0 := t][1..] == ts[1..];
    } else {
      assert ts[i := t][1..] == ts[1..][i - 1 := t];
      CountUpdate(ts[1..], p, i - 1, t);
    }
  }

  lemma {:induction false} CountNone(ts: seq<Transfer>, p: Transfer -> bool)
    ensures Count(ts, p) == 0 <==> forall i | 0 <= i < |ts| :: !p(ts[i])
  {
    if ts == [] {
    } else {
      CountNone(ts[1..], p);
      assert forall i | 1 <= i < |ts| :: ts[i] == ts[1..][i - 1];
    }
  }

  lemma {:induction false} CountIsCard(ts: seq<Transfer>, p: Transfer -> bool)
    ensures Count(ts, p) == |set i: nat | i < |ts| && p(ts[i])|
  {
    if ts == [] {
    } else {
      CountIsCard(ts[1..], p);
      var rest := set i: nat | i < |ts[1..]| && p(ts[1..][i]);
      var shifted := Shifted(rest);
      ShiftedCard(rest);
      var all := set i: nat | i < |ts| && p(ts[i]);
      forall i | i in all && i > 0 ensures i in shifted {
        assert i - 1 in rest;
      }
      assert all == shifted + if p(ts[0]) then {0} else {};
    }
  }

  lemma {:induction false} ShiftedCard(s: set<nat>)
    ensures |Shifted(s)| == |s|
    decreases s
  {
    if x :| x in s {
      ShiftedCard(s - {x});
      forall y | y in Shifted(s) ensures y in Shifted(s - {x}) + {x + 1} {
        var i :| i in s && y == i + 1;
        assert i == x || i in s - {x};
      }
      assert Shifted(s) == Shifted(s - {x}) + {x + 1};
      assert x + 1 !in Shifted(s - {x});
    } else {
      assert s == {} && Shifted(s) == {};
    }
  }

  function Shifted(s: set<nat>): set<nat> {
    set i | i in s :: i + 1
  }

  /** The rows that hold one of the three slots, and those that wait for one. */
  ghost function Busy(ts: seq<Transfer>): set<nat> {
    set i: nat | i < |ts| && (ts[i].state == Preparing || ts[i].state == Running)
  }

  ghost function Queue(ts: seq<Transfer>): set<nat> {
    set i: nat | i < |ts| && ts[i].state == Queued
  }

  lemma Cards(ts: seq<Transfer>)
    ensures Active(ts) == |Busy(ts)| && Waiting(ts) == |Queue(ts)|
  {
    CardOf(ts, IsActive, Busy(ts));
    CardOf(ts, IsQueued, Queue(ts));
  }

  lemma CardOf(ts: seq<Transfer>, p: Transfer -> bool, rows: set<nat>)
    requires forall i: nat :: i in rows <==> i < |ts| && p(ts[i])
    ensures Count(ts, p) == |rows|
  {
    CountIsCard(ts, p);
    assert rows == set i: nat | i < |ts| && p(ts[i]);
  }

  ghost function ActiveKeys(ts: seq<Transfer>): set<Key> {
    set i: nat | i < |ts| && IsActive(ts[i]) :: ts[i].key
  }

  /** Rewriting one row changes the active keys by that row only. */
  lemma RowRewritten(ts: seq<Transfer>, i: nat, row: Transfer)
    requires DistinctKeys(ts) && i < |ts| && row.key == ts[i].key
    ensures DistinctKeys(ts[i := row])
    ensures ActiveKeys(ts[i := row]) == ActiveKeys(ts) - {row.key} + (if IsActive(row) then {row.key} else {})
    ensures Active(ts[i := row]) == Active(ts) - (if IsActive(ts[i]) then 1 else 0) + (if IsActive(row) then 1 else 0)
    ensures Waiting(ts[i := row]) == Waiting(ts) - (if IsQueued(ts[i]) then 1 else 0) + (if IsQueued(row) then 1 else 0)
    ensures forall j | 0 <= j < |ts| && ts[j].key == row.key :: j == i
  {
    CountUpdate(ts, IsActive, i, row);
    CountUpdate(ts, IsQueued, i, row);
    var after := ts[i := row];
    forall k
      ensures k in ActiveKeys(after) <==> k in ActiveKeys(ts) - {row.key} + (if IsActive(row) then {row.key} else {})
    {
      if k in ActiveKeys(ts) && k != row.key {
        var j :| 0 <= j < |ts| && IsActive(ts[j]) && ts[j].key == k;
        assert after[j] == ts[j];
      }
      if k in ActiveKeys(after) && k != row.key {
        var j :| 0 <= j < |ts| && IsActive(after[j]) && after[j].key == k;
        assert after[j] == ts[j];
      }
      if IsActive(row) {
        assert after[i] == row;
      }
    }
  }

  lemma RowAdded(ts: seq<Transfer>, row: Transfer)
    ensures ActiveKeys([row] + ts) == ActiveKeys(ts) + (if IsActive(row) then {row.key} else {})
  {
    var after := [row] + ts;
    forall k ensures k in ActiveKeys(after) <==> k in ActiveKeys(ts) + (if IsActive(row) then {row.key} else {}) {
      if k in ActiveKeys(ts) {
        var j :| 0 <= j < |ts| && IsActive(ts[j]) && ts[j].key == k;
        assert after[j + 1] == ts[j];
      }
      if IsActive(row) {
        assert after[0] == row;
      }
    }
  }

  ghost predicate DistinctKeys(ts: seq<Transfer>) {
    forall i, j | 0 <= i < j < |ts| :: ts[i].key != ts[j].key
  }

  /** What is left of a set of waiting rows is younger than what was promoted of it; rows are listed with
    * the newest first. */
  ghost predicate OldestFirst(before: seq<Transfer>, after: seq<Transfer>) {
    && |after| == |before|
    && (forall i | 0 <= i < |before| ::
         after[i] == before[i] || (IsQueued(before[i]) && after[i] == before[i].(state := Preparing)))
    && (forall i, j | 0 <= i < |before| && 0 <= j < |before| && IsQueued(after[i]) && after[j] != before[j] :: i < j)
  }

  /** A failed row that goes on where it stopped. */
  function Resumed(t: Transfer, runNow: bool): Transfer {
    t.(state := if runNow then Preparing else Queued, error := None)
  }

  /** Never are four transfers under way at once. */
  lemma AtMostThree(state: DemoTransferState, i: nat, j: nat, k: nat, l: nat)
    requires state.Valid() && i < j < k < l < |state.transfers|
    ensures exists n <- {i, j, k, l} ::
      state.transfers[n].state != Preparing && state.transfers[n].state != Running
  {
    Cards(state.transfers);
    if forall n <- {i, j, k, l} :: state.transfers[n].state == Preparing || state.transfers[n].state == Running {
      SubsetCard({i, j, k, l}, Busy(state.transfers));
    }
  }

  lemma {:induction false} SubsetCard(a: set<nat>, b: set<nat>)
    requires a <= b
    ensures |a| <= |b|
  {
    if x :| x in a {
      SubsetCard(a - {x}, b - {x});
    } else {
      assert a == {};
    }
  }

  class DemoTransferState {
    var transfers: seq<Transfer>

    /** The rows that can still be retried or finished. */
    var contexts: set<Key>

    /** The transfers that a task is running, and the finishes whose drain has not come to its end. */
    ghost var runners: set<Key>
    ghost var drains: nat

    ghost predicate Valid()
      reads this
    {
      && DistinctKeys(transfers)
      && Active(transfers) <= MAX_CONCURRENT_TRANSFERS
      && (Waiting(transfers) > 0 ==> Active(transfers) + drains >= MAX_CONCURRENT_TRANSFERS)
      && runners == ActiveKeys(transfers)
      && (forall i | 0 <= i < |transfers| && transfers[i].state != Succeeded :: transfers[i].key in contexts)
    }

    constructor ()
      ensures Valid() && transfers == [] && drains == 0
    {
      transfers, contexts, runners, drains := [], {}, {}, 0;
    }

    /** Enqueues a transfer and starts it at once if there is room. */
    method StartTransfer(key: Key) returns (runNow: bool)
      requires Valid() && forall i | 0 <= i < |transfers| :: transfers[i].key != key
      modifies this
      ensures Valid() && drains == old(drains)
      ensures runNow <==> |Busy(old(transfers))| < 3
      ensures transfers == [Transfer(key, if runNow then Preparing else Queued, 0, None, false)] + old(transfers)
      ensures runners == old(runners) + (if runNow then {key} else {})
    {
      Cards(transfers);
      var active := Active(transfers);
      runNow := active < MAX_CONCURRENT_TRANSFERS;
      var row := Transfer(key, if runNow then Preparing else Queued, 0, None, false);
      ghost var before := transfers;
      assert ([row] + transfers)[1..] == transfers;
      transfers := [row] + transfers;
      contexts := contexts + {key};
      if runNow {
        runners := runners + {key};
      }
      RowAdded(before, row);
    }

    method Find(key: Key) returns (index: Option<nat>)
      ensures index.Some? ==> index.value < |transfers| && transfers[index.value].key == key
      ensures index.None? ==> forall i | 0 <= i < |transfers| :: transfers[i].key != key
    {
      for i := 0 to |transfers|
        invariant forall j | 0 <= j < i :: transfers[j].key != key
      {
        if transfers[i].key == key {
          return Some(i);
        }
      }
      return None;
    }

    /** Resumes a failed transfer where it stopped; anything else is refused. */
    method RetryTransfer(key: Key) returns (resumed: bool, ghost i: nat)
      requires Valid()
      modifies this
      ensures Valid() && drains == old(drains)
      ensures resumed ==>
        && i < |old(transfers)| && old(transfers)[i].key == key && old(transfers)[i].state == Failed
        && transfers == old(transfers)[i :=
             Transfer(key, if |Busy(old(transfers))| < 3 then Preparing else Queued, old(transfers)[i].sentBytes, None,
                      old(transfers)[i].retryable)]
      ensures !resumed ==>
        && transfers == old(transfers)
        && forall j | 0 <= j < |old(transfers)| :: old(transfers)[j].key == key ==> old(transfers)[j].state != Failed
      ensures runners == old(runners) + if resumed && |Busy(old(transfers))| < 3 then {key} else {}
    {
      Cards(transfers);
      i := 0;
      var index := FindFailed(key);
      if index.None? {
        return false, 0;
      }
      i := index.value;
      Resume(index.value);
      resumed := true;
    }

    method FindFailed(key: Key) returns (index: Option<nat>)
      requires Valid()
      ensures index.Some? ==>
        index.value < |transfers| && transfers[index.value].key == key && transfers[index.value].state == Failed
      ensures index.None? ==>
        forall i | 0 <= i < |transfers| :: transfers[i].key == key ==> transfers[i].state != Failed
    {
      if key !in contexts {
        return None;
      }
      index := Find(key);
      if index.None? || transfers[index.value].state != Failed {
        return None;
      }
    }

    method Resume(i: nat)
      requires Valid() && i < |transfers| && transfers[i].state == Failed
      modifies this`transfers, this`runners
      ensures Valid()
      ensures transfers == old(transfers)[i :=
        Resumed(old(transfers)[i], Active(old(transfers)) < MAX_CONCURRENT_TRANSFERS)]
      ensures runners ==
        old(runners) + if Active(old(transfers)) < MAX_CONCURRENT_TRANSFERS then {old(transfers)[i].key} else {}
    {
      var active := Active(transfers);
      var runNow := active < MAX_CONCURRENT_TRANSFERS;
      var row := Resumed(transfers[i], runNow);
      RowRewritten(transfers, i, row);
      transfers := transfers[i := row];
      if runNow {
        runners := runners + {row.key};
      }
    }

    /** The task of a transfer reports how far it has come. */
    method ReportProgress(key: Key, sentBytes: nat)
      requires Valid() && key in runners
      modifies this`transfers
      ensures Valid() && |transfers| == |old(transfers)|
      ensures forall i | 0 <= i < |transfers| ::
        transfers[i] == if old(transfers)[i].key != key then old(transfers)[i]
                        else old(transfers)[i].(sentBytes := sentBytes)
    {
      var index := Find(key);
      assert exists j :: 0 <= j < |transfers| && IsActive(transfers[j]) && transfers[j].key == key;
      var i := index.value;
      var row := transfers[i].(sentBytes := sentBytes);
      RowRewritten(transfers, i, row);
      transfers := transfers[i := row];
    }

    /** A running transfer ends, one way or the other; the drain it owes comes later. */
    method FinishTransfer(key: Key, sentBytes: nat, error: Option<string>)
      requires Valid() && key in runners
      modifies this
      ensures Valid() && drains == old(drains) + 1
      ensures Active(transfers) == Active(old(transfers)) - 1
      ensures runners == old(runners) - {key}
      ensures |transfers| == |old(transfers)|
      ensures forall i | 0 <= i < |transfers| :: (
        transfers[i] ==
        if old(transfers)[i].key != key then old(transfers)[i]
         else Transfer(key, if error.Some? then Failed else Succeeded, sentBytes, error, error.Some?))
      ensures contexts == if error.Some? then old(contexts) + {key} else old(contexts) - {key}
    {
      var index := Find(key);
      assert exists j :: 0 <= j < |transfers| && IsActive(transfers[j]) && transfers[j].key == key;
      var i := index.value;
      var row := Transfer(key, if error.Some? then Failed else Succeeded, sentBytes, error, error.Some?);
      RowRewritten(transfers, i, row);
      transfers := transfers[i := row];
      runners := runners - {key};
      drains := drains + 1;
      contexts := contexts - {key};
      if error.Some? {
        contexts := contexts + {key};
      }
    }

    /** One turn of the drain, under the lock: promotes the oldest waiting row, or ends the drain. */
    method DrainOnce() returns (promoted: Option<nat>)
      requires Valid() && drains > 0
      modifies this
      ensures Valid()
      ensures promoted.None? <==> |Busy(old(transfers))| >= 3 || Queue(old(transfers)) == {}
      ensures promoted.None? ==> transfers == old(transfers) && runners == old(runners) && drains == old(drains) - 1
      ensures promoted.Some? ==>
        && drains == old(drains)
        && promoted.value < |old(transfers)| && IsQueued(old(transfers)[promoted.value])
        && (forall j | promoted.value < j < |old(transfers)| :: !IsQueued(old(transfers)[j]))
        && transfers == old(transfers)[promoted.value := old(transfers)[promoted.value].(state := Preparing)]
        && runners == old(runners) + {old(transfers)[promoted.value].key}
        && Waiting(transfers) == Waiting(old(transfers)) - 1
    {
      CountNone(transfers, IsQueued);
      Cards(transfers);
      if Active(transfers) >= MAX_CONCURRENT_TRANSFERS {
        drains := drains - 1;
        return None;
      }
      var i := |transfers|;
      while i > 0 && transfers[i - 1].state != Queued
        invariant 0 <= i <= |transfers|
        invariant forall j | i <= j < |transfers| :: !IsQueued(transfers[j])
      {
        i := i - 1;
      }
      if i == 0 {
        drains := drains - 1;
        return None;
      }
      Promote(i - 1);
      return Some(i - 1);
    }

    method Promote(i: nat)
      requires Valid() && i < |transfers| && IsQueued(transfers[i]) && Active(transfers) < MAX_CONCURRENT_TRANSFERS
      modifies this`transfers, this`runners
      ensures Valid()
      ensures transfers == old(transfers)[i := old(transfers)[i].(state := Preparing)]
      ensures runners == old(runners) + {old(transfers)[i].key}
      ensures Waiting(transfers) == Waiting(old(transfers)) - 1
    {
      var row := transfers[i].(state := Preparing);
      RowRewritten(transfers, i, row);
      transfers := transfers[i := row];
      runners := runners + {row.key};
    }

    /** The whole drain, when nothing comes between its turns. */
    method ProcessQueue()
      requires Valid() && drains > 0
      modifies this
      ensures Valid() && drains == old(drains) - 1
      ensures OldestFirst(old(transfers), transfers)
      ensures |Busy(transfers)| >= 3 || Queue(transfers) == {}
    {
      while true
        invariant Valid() && drains == old(drains)
        invariant OldestFirst(old(transfers), transfers)
        decreases Waiting(transfers)
      {
        var promoted := DrainOnce();
        if promoted.None? {
          return;
        }
      }
    }
  }
}
