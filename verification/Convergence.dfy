/** What the client cells make of publications that arrive late, twice, out of order or not at all. */
module Convergence {
  import opened Wrappers
  import opened Reducer
  import opened Publication

  /** The backend has given `value` the number `revision` as a state of `r`. */
  ghost predicate Published(history: seq<Message>, seed: Snapshot, r: Resource, revision: nat, value: Value) {
    || (revision == 0 && Seed(seed, r) == Some(value))
    || Message(Cached(r), revision, Some(value)) in history
  }

  /** Whatever `actions` load into `r` was published. */
  ghost predicate FromBackend(history: seq<Message>, seed: Snapshot, r: Resource, actions: seq<Action>) {
    forall a <- actions | a.Loaded? :: Published(history, seed, r, a.revision, a.value)
  }

  /** No two publications of `r` share the saturated revision with different values. */
  ghost predicate Unambiguous(history: seq<Message>, r: Resource) {
    forall v, v' ::
      Message(Cached(r), MAX_REVISION, Some(v)) in history &&
      Message(Cached(r), MAX_REVISION, Some(v')) in history ==>
        v == v'
  }

  lemma UnsaturatedIsUnambiguous(history: seq<Message>, r: Resource)
    requires Numbered(history) && |history| <= MAX_REVISION
    ensures Unambiguous(history, r)
  {
    forall v, v' | Message(Cached(r), MAX_REVISION, Some(v)) in history &&
                   Message(Cached(r), MAX_REVISION, Some(v')) in history
      ensures v == v'
    {
      OneMessagePerRevision(history, Message(Cached(r), MAX_REVISION, Some(v)),
                            Message(Cached(r), MAX_REVISION, Some(v')));
    }
  }

  lemma OneMessagePerRevision(history: seq<Message>, m: Message, m': Message)
    requires Numbered(history) && m in history && m' in history && m.revision == m'.revision
    requires m.revision < MAX_REVISION || |history| <= MAX_REVISION
    ensures m == m'
  {
    var i :| 0 <= i < |history| && history[i] == m;
    var j :| 0 <= j < |history| && history[j] == m';
    assert RevisionAfter(i + 1) == RevisionAfter(j + 1);
  }

  /** A revision stands for one value, the saturated one included if it is unambiguous. */
  lemma RevisionDetermines(history: seq<Message>, seed: Snapshot, r: Resource, revision: nat, v: Value, v': Value)
    requires Numbered(history) && Unambiguous(history, r)
    requires Published(history, seed, r, revision, v) && Published(history, seed, r, revision, v')
    ensures v == v'
  {
    var m, m' := Message(Cached(r), revision, Some(v)), Message(Cached(r), revision, Some(v'));
    if m in history && m' in history && revision != MAX_REVISION {
      var i :| 0 <= i < |history| && history[i] == m;
      OneMessagePerRevision(history, m, m');
    }
  }

  /** A snapshot or a single read, taken at any time, loads only what was published. */
  lemma ReadsArePublished(history: seq<Message>, n: nat, seed: Snapshot, r: Resource)
    requires Numbered(history) && n <= |history|
    ensures var x := Latest(history[..n], r, Seed(seed, r));
      x.Some? ==> Published(history, seed, r, x.value.revision, x.value.value)
  {
    LatestWasPublished(history[..n], r, Seed(seed, r));
  }

  /** The cell holds the newest of everything that was loaded into it, whatever the order. */
  lemma {:induction false} HoldsTheNewest(actions: seq<Action>)
    ensures var c := Replay(IDLE, actions);
      && Coherent(c)
      && (forall a <- actions | a.Loaded? :: a.revision <= c.revision)
      && (c.revision >= 0 ==> c.lastGood.Some? && Loaded(c.revision, c.lastGood.value) in actions)
  {
    if actions == [] {
    } else {
      var n := |actions| - 1;
      assert actions == actions[..n] + [actions[n]];
      HoldsTheNewest(actions[..n]);
      LastGoodSurvives(Replay(IDLE, actions[..n]), actions[n]);
    }
  }

  /** The revision of a cell never decreases. */
  lemma {:induction false} RevisionNeverDecreases(actions: seq<Action>, n: nat)
    requires n <= |actions|
    ensures Replay(IDLE, actions[..n]).revision <= Replay(IDLE, actions).revision
    decreases |actions| - n
  {
    if n == |actions| {
      assert actions[..n] == actions;
    } else {
      assert actions[..n + 1][..n] == actions[..n];
      HoldsTheNewest(actions[..n]);
      LastGoodSurvives(Replay(IDLE, actions[..n]), actions[n]);
      RevisionNeverDecreases(actions, n + 1);
    }
  }

  /** Once the latest publication has been handled -- at whatever point, and whatever else was handled --
    * the client holds what the backend has cached. */
  lemma {:induction false} Converges(history: seq<Message>, seed: Snapshot, r: Resource, actions: seq<Action>)
    requires Numbered(history) && Unambiguous(history, r) && FromBackend(history, seed, r, actions)
    requires var x := Latest(history, r, Seed(seed, r)); x.Some? && Loaded(x.value.revision, x.value.value) in actions
    ensures var x, c := Latest(history, r, Seed(seed, r)).value, Replay(IDLE, actions);
      c.revision == x.revision && c.value == c.lastGood == Some(x.value)
  {
    var x, c := Latest(history, r, Seed(seed, r)).value, Replay(IDLE, actions);
    HoldsTheNewest(actions);
    LatestWasPublished(history, r, Seed(seed, r));
    assert Loaded(c.revision, c.lastGood.value) in actions;
    assert c.revision <= x.revision;
    assert Published(history, seed, r, x.revision, x.value);
    RevisionDetermines(history, seed, r, x.revision, x.value, c.lastGood.value);
  }

  /** At every moment the client shows a state the backend has published under the revision it holds. */
  lemma ShowsWhatWasPublished(history: seq<Message>, seed: Snapshot, r: Resource, actions: seq<Action>)
    requires FromBackend(history, seed, r, actions)
    ensures var c := Replay(IDLE, actions);
      c.revision >= 0 ==> c.value.Some? && Published(history, seed, r, c.revision, c.value.value)
  {
    HoldsTheNewest(actions);
  }

  /** Two clients that were sent the same publications agree, in whatever order, however often, and with
    * whatever failures and reloads in between they handled them. */
  lemma OrderIsIrrelevant(history: seq<Message>, seed: Snapshot, r: Resource,
                          actions: seq<Action>, actions': seq<Action>)
    requires Numbered(history) && Unambiguous(history, r)
    requires FromBackend(history, seed, r, actions) && FromBackend(history, seed, r, actions')
    requires forall a: Action | a.Loaded? :: a in actions <==> a in actions'
    ensures Replay(IDLE, actions).revision == Replay(IDLE, actions').revision
    ensures Replay(IDLE, actions).value == Replay(IDLE, actions').value
  {
    HoldsTheNewest(actions);
    HoldsTheNewest(actions');
    var c, c' := Replay(IDLE, actions), Replay(IDLE, actions');
    if c.revision >= 0 && c'.revision >= 0 {
      RevisionDetermines(history, seed, r, c.revision, c.lastGood.value, c'.lastGood.value);
    }
  }

  /** The client that has handled these actions holds the latest publication. */
  ghost predicate HoldsLatest(history: seq<Message>, seed: Snapshot, r: Resource, actions: seq<Action>) {
    var x, c := Latest(history, r, Seed(seed, r)), Replay(IDLE, actions);
    x.Some? && c.revision == x.value.revision && c.value == c.lastGood == Some(x.value.value)
  }

  /** The actions load what was published, and the latest publication among it. */
  ghost predicate HandlesLatest(history: seq<Message>, seed: Snapshot, r: Resource, actions: seq<Action>) {
    var x := Latest(history, r, Seed(seed, r));
    FromBackend(history, seed, r, actions) && x.Some? && Loaded(x.value.revision, x.value.value) in actions
  }

  /** Convergence holds for all deliveries exactly if the saturated revision is unambiguous: otherwise a
    * client that is sent the older of two publications last shows that one. */
  lemma ConvergesExactly(history: seq<Message>, seed: Snapshot, r: Resource)
    requires Numbered(history)
    ensures Unambiguous(history, r) <==>
      forall actions | HandlesLatest(history, seed, r, actions) :: HoldsLatest(history, seed, r, actions)
  {
    if Unambiguous(history, r) {
      forall actions | HandlesLatest(history, seed, r, actions) ensures HoldsLatest(history, seed, r, actions) {
        Converges(history, seed, r, actions);
      }
    } else {
      var v, v' :| Message(Cached(r), MAX_REVISION, Some(v)) in history &&
                   Message(Cached(r), MAX_REVISION, Some(v')) in history
                   && v != v';
      LatestWasPublished(history, r, Seed(seed, r));
      var x := Latest(history, r, Seed(seed, r)).value;
      var older := if v == x.value then v' else v;
      assert Published(history, seed, r, MAX_REVISION, older) && x.revision == MAX_REVISION;
      OlderLast(x.value, older);
      var actions := [Loaded(MAX_REVISION, x.value), Loaded(MAX_REVISION, older)];
      assert actions[0] in actions;
      assert HandlesLatest(history, seed, r, actions) && !HoldsLatest(history, seed, r, actions);
    }
  }

  lemma OlderLast(v: Value, v': Value)
    ensures Replay(IDLE, [Loaded(MAX_REVISION, v), Loaded(MAX_REVISION, v')]).value == Some(v')
  {
    var a, b := Loaded(MAX_REVISION, v), Loaded(MAX_REVISION, v');
    assert [a, b][..1] == [a] && [a][..0] == [];
    assert Replay(IDLE, [a]) == Fresh(MAX_REVISION, v);
  }

  /** A history that runs into saturation: the last revision is given to two values. */
  function Saturated(r: Resource, v: Value, v': Value): seq<Message> {
    seq(MAX_REVISION + 1, i requires 0 <= i =>
      Message(Cached(r), RevisionAfter(i + 1), Some(if i < MAX_REVISION then v else v')))
  }

  /** After it, a client that is sent its last two publications in the other order does not converge. */
  lemma SaturatedDiverges(seed: Snapshot, r: Resource, v: Value, v': Value)
    requires v != v'
    ensures var history, actions := Saturated(r, v, v'), [Loaded(MAX_REVISION, v'), Loaded(MAX_REVISION, v)];
      && Numbered(history) && !Unambiguous(history, r)
      && Latest(history, r, Seed(seed, r)) == Some(Revisioned(MAX_REVISION, v'))
      && HandlesLatest(history, seed, r, actions) && Replay(IDLE, actions).value == Some(v)
  {
    var history, actions := Saturated(r, v, v'), [Loaded(MAX_REVISION, v'), Loaded(MAX_REVISION, v)];
    assert history[MAX_REVISION] == Message(Cached(r), MAX_REVISION, Some(v'));
    assert history[MAX_REVISION - 1] == Message(Cached(r), MAX_REVISION, Some(v));
    OlderLast(v', v);
    assert actions[0] in actions;
  }
}
