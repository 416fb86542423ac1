/** Whole runs: deletions that may fail or die anywhere, and launches whose recoveries may fail or die in
  * their turn.
  */
module DeleteRuns {
  import opened DeleteWorld
  import opened LibraryDelete
  import opened DeleteBatch
  import opened DeleteOperation
  import opened Wrappers

  /** Recovery has nothing to guess about. */
  ghost predicate Orderly(w: World) {
    Sound(w) && Placeable(w) && Uniform(w)
  }

  /** A complete recovery of `w` less the rows of `rows` and the directories of `dirs` at their source. */
  ghost predicate EndsAs(w: World, u: World, rows: set<Key>, dirs: set<Key>) {
    && Quiet(u)
    && u.rows == w.rows - rows
    && u.revision == (if w.rows.Keys !! rows then w.revision else w.revision + 1)
    && UploadLeases(u.leases) == UploadLeases(w.leases)
    && forall k, d :: (k in u.source && u.source[k] == d) <==> Home(w, k, d) && !(k in dirs && k in w.source)
  }

  method RecoverOnce(store: AppStore, disk: Disk, io: Io) returns (done: bool)
    requires Sound(View(store, disk))
    modifies store, disk
    ensures Kept(old(View(store, disk)), View(store, disk))
    ensures done ==> Quiet(View(store, disk))
    ensures Orderly(old(View(store, disk))) && Smooth(io) ==> done
  {
    if Smooth(io) {
      SmoothRecovers(View(store, disk), disk.folders, io);
    }
    var r := RecoverPendingDeletes(store, disk, io);
    done := r == Recovered;
  }

  /** Launches the application until a recovery comes to its end. */
  method Launch(store: AppStore, disk: Disk, launches: seq<Io>) returns (recovered: bool)
    requires Sound(View(store, disk))
    modifies store, disk
    ensures Kept(old(View(store, disk)), View(store, disk))
    ensures recovered ==> EndsAs(old(View(store, disk)), View(store, disk), {}, {})
    ensures Orderly(old(View(store, disk))) && (exists io <- launches :: Smooth(io)) ==> recovered
  {
    ghost var w0 := View(store, disk);
    for n := 0 to |launches|
      invariant Kept(w0, View(store, disk))
      invariant Orderly(w0) ==> forall io <- launches[..n] :: !Smooth(io)
    {
      ghost var w := View(store, disk);
      var done := RecoverOnce(store, disk, launches[n]);
      KeptTwice(w0, w, View(store, disk));
      if done {
        KeptIsTaken(w0, View(store, disk));
        ToTheEnd(w0, View(store, disk), {}, {});
        return true;
      }
      assert launches[..n + 1] == launches[..n] + [launches[n]];
    }
    assert launches[..|launches|] == launches;
    return false;
  }

  lemma KeptIsTaken(w: World, v: World)
    requires Kept(w, v)
    ensures Taken(w, v, {}, {})
  {
  }

  lemma TakenThenKept(w: World, v: World, u: World, rows: set<Key>, dirs: set<Key>)
    requires Taken(w, v, rows, dirs) && Kept(v, u)
    ensures Taken(w, u, rows, dirs)
  {
  }

  lemma ToTheEnd(w: World, u: World, rows: set<Key>, dirs: set<Key>)
    requires Taken(w, u, rows, dirs) && (Placeable(w) || dirs == {}) && Quiet(u)
    ensures EndsAs(w, u, rows, dirs)
  {
    forall k, d ensures (k in u.source && u.source[k] == d) <==> Home(w, k, d) && !(k in dirs && k in w.source) {
      assert Home(u, k, d) <==> Home(w, k, d) && !(k in dirs && k in w.source);
    }
  }

  /** However often recovery was interrupted on the way, completing it leads to one and the same state. */
  lemma RecoveryIsDetermined(w: World, u: World, v: World)
    requires Kept(w, u) && Quiet(u)
    requires Kept(w, v) && Quiet(v)
    ensures u == v
  {
    QuietIsDetermined(u, v);
  }

  /** From a state without traces, the end is the old state less the batch. */
  lemma QuietEnd(w: World, u: World, keys: set<Key>)
    requires Quiet(w) && EndsAs(w, u, keys, keys) && SameStrays(w, u)
    ensures u == Without(w, keys)
  {
    forall k | k in w.source && k !in keys ensures k in u.source && u.source[k] == w.source[k] {
      assert Home(w, k, w.source[k]);
    }
    forall k | k in u.source ensures k in w.source && k !in keys && u.source[k] == w.source[k] {
      assert Home(w, k, u.source[k]);
    }
    assert forall s :: s in w.trash <==> Stray(w, s);
    assert forall s :: s in u.trash <==> Stray(u, s);
  }

  /** What a reported deletion is worth: the row is gone, and the directory is gone for good exactly if no
    * earlier refused deletion had left it in the trash to be put back. */
  lemma GoneForGood(w: World, u: World, keys: set<Key>, k: Key)
    requires Placeable(w) && EndsAs(w, u, keys, keys) && k in keys
    ensures k !in u.rows
    ensures k !in u.source <==> !exists op :: Restorable(w, Slot(op, k))
  {
    if op :| Restorable(w, Slot(op, k)) {
      assert Home(w, k, w.trash[Slot(op, k)]);
    } else if k in u.source {
      assert Home(w, k, u.source[k]);
    }
  }

  /** A deletion followed by launches, once recovery has come to its end.  All is as recovery would have made
    * it without the deletion, or the rows of the whole batch and its directories are gone from that; the
    * caller who heard of success or failure heard which.  The one exception is a stranded deletion: then
    * exactly the directories that its rollback has lost are missing, and lie whole in the trash. */
  method DeleteAndRelaunch(store: AppStore, disk: Disk, op: OpId, expected: nat, entries: seq<DeleteEntry>, io: Io,
                           launches: seq<Io>)
    returns (r: DeleteResult, recovered: bool)
    requires Orderly(View(store, disk)) && Fresh(View(store, disk), op)
    modifies store, disk
    ensures recovered && !Stranded(old(View(store, disk)), op, entries, io) ==>
      || EndsAs(old(View(store, disk)), View(store, disk), {}, {})
      || EndsAs(old(View(store, disk)), View(store, disk), Names(FirstKeys(entries)), Names(FirstKeys(entries)))
    ensures recovered && r.Deleted? ==>
      && EndsAs(old(View(store, disk)), View(store, disk), Names(FirstKeys(entries)), Names(FirstKeys(entries)))
      && r.revision == store.revision
    ensures recovered && !Stranded(old(View(store, disk)), op, entries, io) && r.Rejected? ==>
      EndsAs(old(View(store, disk)), View(store, disk), {}, {})
    ensures recovered && Stranded(old(View(store, disk)), op, entries, io) ==>
      var lost := LostBy(old(View(store, disk)), op, FirstKeys(entries), io);
      && EndsAs(old(View(store, disk)), View(store, disk), {}, lost)
      && forall k <- lost :: Slot(op, k) in disk.trash && disk.trash[Slot(op, k)] == old(disk.source)[k]
    ensures (exists io' <- launches :: Smooth(io')) ==> recovered
  {
    ghost var w := View(store, disk);
    r := DeleteEntries(store, disk, op, expected, entries, io);
    ghost var v := View(store, disk);
    recovered := Launch(store, disk, launches);
    if recovered {
      Ends(w, v, View(store, disk), Names(FirstKeys(entries)));
      StrayedEnds(w, v, View(store, disk), op, LostBy(w, op, FirstKeys(entries), io));
    }
  }

  lemma Ends(w: World, v: World, u: World, keys: set<Key>)
    requires Placeable(w) && Kept(v, u) && Quiet(u)
    ensures Kept(w, v) ==> EndsAs(w, u, {}, {})
    ensures Gone(w, v, keys) ==> EndsAs(w, u, keys, keys)
  {
    if Kept(w, v) {
      KeptIsTaken(w, v);
      TakenThenKept(w, v, u, {}, {});
      ToTheEnd(w, u, {}, {});
    }
    if Gone(w, v, keys) {
      TakenThenKept(w, v, u, keys, keys);
      ToTheEnd(w, u, keys, keys);
    }
  }

  lemma StrayedEnds(w: World, v: World, u: World, op: OpId, lost: set<Key>)
    requires Placeable(w) && Kept(v, u) && Quiet(u)
    ensures Strayed(w, v, op, lost) ==> EndsAs(w, u, {}, lost)
    ensures Strayed(w, v, op, lost) ==>
      forall k | k in lost && k in w.source :: Slot(op, k) in u.trash && u.trash[Slot(op, k)] == w.source[k]
  {
    if Strayed(w, v, op, lost) {
      TakenThenKept(w, v, u, {}, lost);
      ToTheEnd(w, u, {}, lost);
      assert forall k | k in lost && k in w.source :: Stray(v, Slot(op, k)) && Stray(u, Slot(op, k));
    }
  }

  lemma QuietIsOrderly(w: World)
    requires Quiet(w)
    ensures Orderly(w)
  {
    assert forall k <- w.leases :: k in UploadLeases(w.leases);
  }

  /* ------------------------------ sessions ------------------------------ */

  /** What happens to a library: a deletion, or a launch that recovers. */
  datatype Call = Remove(expected: nat, entries: seq<DeleteEntry>, io: Io) | Restart(io: Io)

  /** What a call takes from the library: rows, and directories from their path. */
  datatype Loss = Loss(rows: set<Key>, dirs: set<Key>)

  const NOTHING := Loss({}, {})

  /** The outcome of one call, in the terms of what its caller was told. */
  ghost predicate Took(w: World, v: World, call: Call, op: OpId, r: Option<DeleteResult>, loss: Loss) {
    match call
    case Restart(_) => r.None? && loss == NOTHING
    case Remove(_, entries, io) =>
      && r.Some?
      && var keys := FirstKeys(entries);
      if Stranded(w, op, entries, io) then
        !r.value.Deleted? && loss == Loss({}, LostBy(w, op, keys, io)) && Astray(w, v, op, loss.dirs)
      else
        && (loss == NOTHING || loss == Loss(Names(keys), Names(keys)))
        && (r.value.Deleted? ==> loss == Loss(Names(keys), Names(keys)))
        && (r.value.Rejected? ==> loss == NOTHING)
  }

  /** What recovery does not know of, nothing touches. */
  ghost predicate StraysStay(w: World, v: World) {
    forall s | Stray(w, s) :: Stray(v, s) && v.trash[s] == w.trash[s]
  }

  /** A run of the library: each step takes away what `losses` says, and nothing else. */
  ghost predicate Chain(trace: seq<World>, losses: seq<Loss>) {
    && |trace| == |losses| + 1
    && (forall i | 0 <= i < |trace| :: Orderly(trace[i]))
    && (forall i | 0 <= i < |losses| :: Taken(trace[i], trace[i + 1], losses[i].rows, losses[i].dirs))
    && (forall i | 0 <= i < |losses| :: StraysStay(trace[i], trace[i + 1]))
  }

  /** An id that is in use nowhere, as a random one is. */
  method UnusedId(store: AppStore, disk: Disk) returns (op: OpId)
    ensures Fresh(View(store, disk), op)
  {
    var used := (set s | s in disk.trash :: s.op) + (set s | s in disk.markers :: s.op)
              + (set s | s in store.intents :: s.op) + (set k | k in store.leases :: store.leases[k].op);
    op := 0;
    var todo := used;
    while todo != {}
      invariant forall id <- used :: id in todo || id < op
      decreases todo
    {
      var id :| id in todo;
      todo := todo - {id};
      if id >= op {
        op := id + 1;
      }
    }
    assert forall s | s in disk.trash || s in disk.markers || s in store.intents :: s.op in used;
    assert forall k <- store.leases :: store.leases[k].op in used;
  }

  /** Any sequence of deletions and launches, whatever becomes of each. */
  method Session(store: AppStore, disk: Disk, calls: seq<Call>)
    returns (results: seq<Option<DeleteResult>>, ghost ops: seq<OpId>,
             ghost trace: seq<World>, ghost losses: seq<Loss>)
    requires Orderly(View(store, disk))
    modifies store, disk
    ensures Chain(trace, losses) && |results| == |ops| == |losses| == |calls|
    ensures trace[0] == old(View(store, disk)) && trace[|calls|] == View(store, disk)
    ensures forall i | 0 <= i < |calls| :: Took(trace[i], trace[i + 1], calls[i], ops[i], results[i], losses[i])
  {
    trace, losses, results, ops := [View(store, disk)], [], [], [];
    for n := 0 to |calls|
      invariant Chain(trace, losses) && |results| == |ops| == |losses| == n
      invariant trace[0] == old(View(store, disk)) && trace[n] == View(store, disk)
      invariant forall i | 0 <= i < n :: Took(trace[i], trace[i + 1], calls[i], ops[i], results[i], losses[i])
    {
      ghost var w := View(store, disk);
      var r, op;
      ghost var loss;
      r, op, loss := OneCall(store, disk, calls[n]);
      results := results + [r];
      ExtendChain(trace, losses, View(store, disk), loss);
      trace, losses, ops := trace + [View(store, disk)], losses + [loss], ops + [op];
    }
  }

  lemma ExtendChain(trace: seq<World>, losses: seq<Loss>, v: World, loss: Loss)
    requires Chain(trace, losses) && StraysStay(trace[|losses|], v)
    requires Taken(trace[|losses|], v, loss.rows, loss.dirs)
    ensures Chain(trace + [v], losses + [loss])
  {
  }

  method OneCall(store: AppStore, disk: Disk, call: Call)
    returns (r: Option<DeleteResult>, op: OpId, ghost loss: Loss)
    requires Orderly(View(store, disk))
    modifies store, disk
    ensures Taken(old(View(store, disk)), View(store, disk), loss.rows, loss.dirs)
    ensures StraysStay(old(View(store, disk)), View(store, disk))
    ensures Took(old(View(store, disk)), View(store, disk), call, op, r, loss)
  {
    ghost var w := View(store, disk);
    op := UnusedId(store, disk);
    match call {
      case Restart(io) =>
        var _ := RecoverPendingDeletes(store, disk, io);
        KeptIsTaken(w, View(store, disk));
        return None, op, NOTHING;
      case Remove(expected, entries, io) =>
        var result := DeleteEntries(store, disk, op, expected, entries, io);
        loss := LossOf(w, View(store, disk), op, entries, io, result);
        return Some(result), op, loss;
    }
  }

  lemma LossOf(w: World, v: World, op: OpId, entries: seq<DeleteEntry>, io: Io, r: DeleteResult) returns (loss: Loss)
    requires var keys := FirstKeys(entries);
      if Stranded(w, op, entries, io) then !r.Deleted? && Strayed(w, v, op, LostBy(w, op, keys, io))
      else (Kept(w, v) || Gone(w, v, Names(keys))) && (r.Deleted? ==> Gone(w, v, Names(keys))) &&
           (r.Rejected? ==> Kept(w, v))
    ensures Taken(w, v, loss.rows, loss.dirs) && StraysStay(w, v)
    ensures forall expected :: Took(w, v, Remove(expected, entries, io), op, Some(r), loss)
  {
    var keys := FirstKeys(entries);
    if Stranded(w, op, entries, io) {
      loss := Loss({}, LostBy(w, op, keys, io));
    } else if Kept(w, v) && !r.Deleted? {
      KeptIsTaken(w, v);
      loss := NOTHING;
    } else {
      loss := Loss(Names(keys), Names(keys));
    }
  }

  lemma PartOfChain(trace: seq<World>, losses: seq<Loss>, lo: nat, hi: nat)
    requires Chain(trace, losses) && lo <= hi <= |losses|
    ensures Chain(trace[lo..hi + 1], losses[lo..hi])
  {
    var part, some := trace[lo..hi + 1], losses[lo..hi];
    forall i | 0 <= i < hi - lo
      ensures Taken(part[i], part[i + 1], some[i].rows, some[i].dirs) && StraysStay(part[i], part[i + 1])
    {
      assert Taken(trace[lo + i], trace[lo + i + 1], losses[lo + i].rows, losses[lo + i].dirs);
      assert StraysStay(trace[lo + i], trace[lo + i + 1]);
    }
  }

  /** Nothing in the run took the directory of `k` from its path. */
  ghost predicate Spared(trace: seq<World>, losses: seq<Loss>, k: Key)
    requires |trace| == |losses| + 1
  {
    forall i | 0 <= i < |losses| :: !(k in losses[i].dirs && k in trace[i].source)
  }

  /** Nothing in the run took the row of `k`. */
  ghost predicate RowSpared(losses: seq<Loss>, k: Key) {
    forall i | 0 <= i < |losses| :: k !in losses[i].rows
  }

  lemma {:induction false} ChainKeepsHomes(trace: seq<World>, losses: seq<Loss>)
    requires Chain(trace, losses)
    ensures forall k, d :: Home(trace[|losses|], k, d) <==> Home(trace[0], k, d) && Spared(trace, losses, k)
    ensures forall k :: k in trace[|losses|].rows <==> k in trace[0].rows && RowSpared(losses, k)
    decreases |losses|
  {
    if losses == [] {
    } else {
      var n := |losses| - 1;
      var trace', losses' := trace[0..n + 1], losses[0..n];
      PartOfChain(trace, losses, 0, n);
      ChainKeepsHomes(trace', losses');
      assert losses == losses' + [losses[n]];
      var w, loss := trace[n], losses[n];
      assert Taken(w, trace[n + 1], loss.rows, loss.dirs) && Placeable(w);
      forall k
        ensures Spared(trace, losses, k) <==> Spared(trace', losses', k) && !(k in loss.dirs && k in w.source)
        ensures RowSpared(losses, k) <==> RowSpared(losses', k) && k !in loss.rows
      {
      }
    }
  }

  /** However many deletions and launches there were: a complete recovery at the end leaves exactly the rows
    * that no deletion took, and exactly the directories that no deletion took or lost. */
  lemma SessionEnds(trace: seq<World>, losses: seq<Loss>)
    requires Chain(trace, losses) && Quiet(trace[|losses|])
    ensures var w, u := trace[0], trace[|losses|];
      && (forall k :: k in u.rows <==> k in w.rows && RowSpared(losses, k))
      && (forall k, d :: (k in u.source && u.source[k] == d) <==> Home(w, k, d) && Spared(trace, losses, k))
  {
    ChainKeepsHomes(trace, losses);
    var u := trace[|losses|];
    forall k, d ensures (k in u.source && u.source[k] == d) <==> Home(u, k, d) {
    }
  }

  /** What a stranded deletion has lost at step `i` lies in the trash ever after, whole, and with its row
    * unless that is deleted in turn. */
  lemma LostIsNotDestroyed(trace: seq<World>, losses: seq<Loss>, i: nat, op: OpId, k: Key)
    requires Chain(trace, losses) && i < |losses| && losses[i] == Loss({}, losses[i].dirs)
    requires Astray(trace[i], trace[i + 1], op, losses[i].dirs)
    requires k in losses[i].dirs && k in trace[i].source
    ensures var u := trace[|losses|];
      && Slot(op, k) in u.trash && u.trash[Slot(op, k)] == trace[i].source[k]
      && (k in u.rows <==> k in trace[i].rows && RowSpared(losses[i + 1..], k))
  {
    assert Stray(trace[i + 1], Slot(op, k));
    assert trace[i + 1].trash[Slot(op, k)] == trace[i].source[k];
    StraysForever(trace, losses, i + 1, Slot(op, k));
    PartOfChain(trace, losses, i + 1, |losses|);
    assert trace[i + 1..|losses| + 1] == trace[i + 1..] && losses[i + 1..|losses|] == losses[i + 1..];
    ChainKeepsHomes(trace[i + 1..], losses[i + 1..]);
    assert Taken(trace[i], trace[i + 1], {}, losses[i].dirs);
  }

  lemma {:induction false} StraysForever(trace: seq<World>, losses: seq<Loss>, i: nat, s: Slot)
    requires Chain(trace, losses) && i <= |losses| && Stray(trace[i], s)
    ensures Stray(trace[|losses|], s) && trace[|losses|].trash[s] == trace[i].trash[s]
    decreases |losses| - i
  {
    if i < |losses| {
      assert StraysStay(trace[i], trace[i + 1]);
      StraysForever(trace, losses, i + 1, s);
    }
  }

  /** What the report of success at step `i` is worth at the end of the session: the row is gone; and the
    * directory comes back exactly if an earlier refused deletion had left it in the trash, and no later
    * one has taken it from its path. */
  lemma ReportAtTheEnd(trace: seq<World>, losses: seq<Loss>, i: nat, k: Key)
    requires Chain(trace, losses) && Quiet(trace[|losses|]) && i < |losses|
    requires k in losses[i].rows && k in losses[i].dirs
    ensures var u := trace[|losses|];
      && k !in u.rows
      && (k in u.source <==> (exists op :: Restorable(trace[i], Slot(op, k))) && Spared(trace[i..], losses[i..], k))
  {
    var trace', losses', u := trace[i..], losses[i..], trace[|losses|];
    PartOfChain(trace, losses, i, |losses|);
    assert trace[i..|losses| + 1] == trace' && losses[i..|losses|] == losses';
    SessionEnds(trace', losses');
    assert losses'[0] == losses[i] && Placeable(trace[i]);
    assert Spared(trace', losses', k) ==> k !in trace'[0].source;
    if k in u.source {
      assert Home(trace[i], k, u.source[k]);
    }
    if op :| Restorable(trace[i], Slot(op, k)) {
      assert Home(trace[i], k, trace[i].trash[Slot(op, k)]);
    }
  }

  /* ------------------------------ concrete runs ------------------------------ */

  /** The exception is real: one entry in a quiet library, the intents cannot be recorded, and the rename
    * back is refused while the marker can be removed. */
  lemma {:induction false} StrandingHappens(key: Key, payload: Tree)
    ensures var w := World(map[key := payload], map[], {}, map[key := 1], 7, map[], map[]);
      var io := (e: Effect) => if e.Record? || e.Back? then Refused else Done;
      && Quiet(w) && Fresh(w, 0)
      && Stranded(w, 0, [DeleteEntry(key, "device", "session")], io)
  {
    var w := World(map[key := payload], map[], {}, map[key := 1], 7, map[], map[]);
    var io := (e: Effect) => if e.Record? || e.Back? then Refused else Done;
    OneKey(DeleteEntry(key, "device", "session"));
    assert Loses(w, Slot(0, [key][0]), io) && SurvivesFrom(w, 0, [key], io, 1);
    assert [key][0] in LostBy(w, 0, [key], io);
  }

  lemma OneKey(e: DeleteEntry)
    ensures FirstKeys([e]) == [e.key] && Agree([e])
  {
    assert [e][..0] == [];
  }

  /** A deletion that was reported done comes undone: a first deletion is refused after its rename out, and
    * cannot be put back; a second one finds no directory and succeeds; the next launch puts it back. */
  method ReportedGoneAndBack(store: AppStore, disk: Disk, key: Key, payload: Tree)
    returns (first: DeleteResult, second: DeleteResult, recovered: bool)
    requires View(store, disk) == World(map[key := payload], map[], {}, map[key := 1], 7, map[], map[])
    modifies store, disk
    ensures first.Rejected? && second == Deleted(8, true) && recovered
    ensures key !in store.rows && key in disk.source
  {
    first := RefusedDeletion(store, disk, key, payload);
    second := DeletionOfTheRest(store, disk, key);
    ghost var u := View(store, disk);
    assert Smooth(e => Done);
    recovered := Launch(store, disk, [e => Done]);
    assert Home(u, key, u.trash[Slot(0, key)]);
  }

  method RefusedDeletion(store: AppStore, disk: Disk, key: Key, payload: Tree) returns (first: DeleteResult)
    requires View(store, disk) == World(map[key := payload], map[], {}, map[key := 1], 7, map[], map[])
    modifies store, disk
    ensures first.Rejected? && Orderly(View(store, disk)) && Restorable(View(store, disk), Slot(0, key))
    ensures store.rows == map[key := 1] && store.revision == 7 && store.leases == map[]
  {
    ghost var w := View(store, disk);
    QuietIsOrderly(w);
    var entry := DeleteEntry(key, "device", "session");
    OneKey(entry);
    var io := (e: Effect) => if e.Out? then Late else if e.Back? then Refused else Done;
    LeavesIt(w, entry, io);
    first := DeleteEntries(store, disk, 0, 7, [entry], io);
    assert Slot(0, key) in disk.trash;
  }

  lemma LeavesIt(w: World, e: DeleteEntry, io: Io)
    requires e.key in w.source && w.leases == map[]
    requires io == ((e: Effect) => if e.Out? then Late else if e.Back? then Refused else Done)
    ensures NoHalt(io) && Goes(w, 0, [e], io) && !Stages(w, 0, FirstKeys([e]), io)
    ensures LeftBehind(w, 0, FirstKeys([e]), io, e.key) && !Stranded(w, 0, [e], io)
  {
    OneKey(e);
    assert !StagesAt(w, Slot(0, [e.key][0]), io) && MovesOut(w, 0, [e.key], io, 0);
  }

  method DeletionOfTheRest(store: AppStore, disk: Disk, key: Key) returns (second: DeleteResult)
    requires Orderly(View(store, disk)) && Restorable(View(store, disk), Slot(0, key))
    requires store.rows == map[key := 1] && store.revision == 7 && store.leases == map[]
    modifies store, disk
    ensures second == Deleted(8, true) && key !in store.rows
    ensures Orderly(View(store, disk)) && Restorable(View(store, disk), Slot(0, key))
  {
    var entry := DeleteEntry(key, "device", "session");
    OneKey(entry);
    var op := UnusedId(store, disk);
    second := DeleteEntries(store, disk, op, 7, [entry], e => Done);
    assert FirstKeys([entry])[0] in Names(FirstKeys([entry]));
  }
}
