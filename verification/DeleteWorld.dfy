/** The durable state a library deletion touches -- session directories, the hidden trash with its
  * marker files, and the SQLite tables of the application store -- as one value, together with the
  * atomic effects of a deletion or of its recovery.
  *
  * `Home` says, without mentioning any step, where a complete recovery must bring every directory.
  * The lemmas at the end say which effects leave that unchanged: they are what makes a crash between
  * any two effects harmless.
  */
module DeleteWorld {

  type Key = string
  type OpId = nat

  /** The contents of a session directory; `Torn` is a directory whose removal was interrupted. */
  datatype Tree = Intact(id: nat) | Torn

  /** Entry `key` as staged by operation `op`: one payload directory and one marker file. */
  datatype Slot = Slot(op: OpId, key: Key)

  datatype Phase = Staged | Committed

  datatype Kind = Delete | Upload

  datatype Lease = Lease(op: OpId, kind: Kind)

  datatype World = World(
    source: map<Key, Tree>,
    trash: map<Slot, Tree>,
    markers: set<Slot>,
    rows: map<Key, nat>,
    revision: nat,
    leases: map<Key, Lease>,
    intents: map<Slot, Phase>)

  ghost predicate IsCommitted(w: World, s: Slot) {
    s in w.intents && w.intents[s] == Committed
  }

  /** A marker or an intent tells recovery of this slot. */
  predicate Recorded(w: World, s: Slot) {
    s in w.markers || s in w.intents
  }

  /** A payload that recovery has to put back. */
  ghost predicate Restorable(w: World, s: Slot) {
    s in w.trash && Recorded(w, s) && !IsCommitted(w, s)
  }

  /** A payload that recovery does not know of. */
  ghost predicate Stray(w: World, s: Slot) {
    s in w.trash && !Recorded(w, s)
  }

  /** Every payload to put back has a free place to go to, and no rival for it. */
  ghost predicate Placeable(w: World) {
    && (forall s | Restorable(w, s) :: s.key !in w.source)
    && (forall s, t | Restorable(w, s) && Restorable(w, t) && s.key == t.key :: s == t)
  }

  /** The intents of one operation are in one phase. */
  ghost predicate Uniform(w: World) {
    forall s <- w.intents, t <- w.intents | s.op == t.op :: w.intents[s] == w.intents[t]
  }

  /** The leases of operation `op`, if any, are delete leases. */
  ghost predicate DeletesOnly(leases: map<Key, Lease>, op: OpId) {
    forall k <- leases | leases[k].op == op :: leases[k].kind == Delete
  }

  /** What every crash point leaves: the leases that recovery drops with a deletion belong to deletions. */
  ghost predicate Sound(w: World) {
    && (forall s <- w.intents :: DeletesOnly(w.leases, s.op))
    && (forall k <- w.leases | w.leases[k].kind == Delete :: DeletesOnly(w.leases, w.leases[k].op))
  }

  /** A complete recovery leaves the directory of `k` at its original path, holding `d`. */
  ghost predicate Home(w: World, k: Key, d: Tree) {
    || (k in w.source && w.source[k] == d)
    || exists op :: Restorable(w, Slot(op, k)) && w.trash[Slot(op, k)] == d
  }

  function UploadLeases(leases: map<Key, Lease>): map<Key, Lease> {
    map k | k in leases && leases[k].kind == Upload :: leases[k]
  }

  /** The same payloads are out of the sight of recovery. */
  ghost predicate SameStrays(w: World, v: World) {
    && (forall s :: Stray(w, s) <==> Stray(v, s))
    && (forall s | Stray(w, s) && Stray(v, s) :: w.trash[s] == v.trash[s])
  }

  /** The two states are recovered to the same directories, rows, revision and upload leases. */
  ghost predicate SameFate(w: World, v: World) {
    && SameStrays(w, v)
    && (forall k, d :: Home(w, k, d) <==> Home(v, k, d))
    && w.rows == v.rows
    && w.revision == v.revision
    && UploadLeases(w.leases) == UploadLeases(v.leases)
  }

  /** `v` is as recoverable as `w`, and recovers to the same state. */
  ghost predicate Kept(w: World, v: World) {
    && Sound(v)
    && SameFate(w, v)
    && (Placeable(w) ==> Placeable(v))
    && (Uniform(w) ==> Uniform(v))
  }

  lemma KeptSame(w: World)
    requires Sound(w)
    ensures Kept(w, w)
  {
  }

  lemma KeptTwice(w: World, v: World, u: World)
    requires Kept(w, v) && Kept(v, u)
    ensures Kept(w, u)
  {
  }

  /** No trace of any deletion is left that recovery could find. */
  ghost predicate Quiet(w: World) {
    && w.markers == {}
    && w.intents == map[]
    && w.leases == UploadLeases(w.leases)
  }

  /* ------------------------------ atomic effects ------------------------------ */

  function DropMarker(w: World, s: Slot): World {
    w.(markers := w.markers - {s})
  }

  function MoveBack(w: World, s: Slot): World
    requires s in w.trash
  {
    w.(source := w.source[s.key := w.trash[s]], trash := w.trash - {s})
  }

  function WithLeases(leases: map<Key, Lease>, op: OpId, keys: set<Key>): map<Key, Lease> {
    map k | k in leases.Keys + keys :: if k in keys then Lease(op, Delete) else leases[k]
  }

  function WithoutLeases(leases: map<Key, Lease>, op: OpId): map<Key, Lease> {
    map k | k in leases && leases[k].op != op :: leases[k]
  }

  function WithIntents(intents: map<Slot, Phase>, op: OpId, keys: set<Key>): map<Slot, Phase> {
    map s | s in intents.Keys + Slots(op, keys) :: if s in intents then intents[s] else Staged
  }

  function CommittedIntents(intents: map<Slot, Phase>, op: OpId): map<Slot, Phase> {
    map s | s in intents :: if s.op == op then Committed else intents[s]
  }

  function WithoutIntents(intents: map<Slot, Phase>, op: OpId, phase: Phase): map<Slot, Phase> {
    map s | s in intents && !(s.op == op && intents[s] == phase) :: intents[s]
  }

  function Slots(op: OpId, keys: set<Key>): set<Slot> {
    set k | k in keys :: Slot(op, k)
  }

  function TakeLeases(w: World, op: OpId, keys: set<Key>): World {
    w.(leases := WithLeases(w.leases, op, keys))
  }

  function RecordIntents(w: World, op: OpId, keys: set<Key>): World {
    w.(intents := WithIntents(w.intents, op, keys))
  }

  function Commit(w: World, op: OpId, keys: set<Key>): World {
    w.(rows := w.rows - keys,
       revision := if w.rows.Keys !! keys then w.revision else w.revision + 1,
       intents := CommittedIntents(w.intents, op))
  }

  function DropIntents(w: World, op: OpId, phase: Phase): World {
    w.(intents := WithoutIntents(w.intents, op, phase), leases := WithoutLeases(w.leases, op))
  }

  /* ------------------------------ what each effect keeps ------------------------------ */

  /** States with the same directories and the same payloads to put back have the same homes. */
  lemma SameHomes(w: World, v: World)
    requires w.source == v.source
    requires forall s :: Restorable(w, s) <==> Restorable(v, s)
    requires forall s | Restorable(w, s) && Restorable(v, s) :: w.trash[s] == v.trash[s]
    ensures forall k, d :: Home(w, k, d) <==> Home(v, k, d)
  {
  }

  /** A marker may go once its payload is back, or while an intent records it. */
  lemma DropMarkerKeepsFate(w: World, s: Slot)
    requires Sound(w) && (s !in w.trash || s in w.intents)
    ensures Kept(w, DropMarker(w, s))
  {
    SameHomes(w, DropMarker(w, s));
  }

  lemma MoveBackKeepsFate(w: World, s: Slot)
    requires Sound(w) && Restorable(w, s) && s.key !in w.source
    ensures Kept(w, MoveBack(w, s))
  {
  }

  /** `v` is `w` with a committed entry cleaned up, wholly or in part. */
  ghost predicate Cleaning(w: World, v: World, s: Slot) {
    && v == w.(trash := v.trash, markers := v.markers)
    && (v.markers == w.markers || v.markers == w.markers - {s})
    && (v.trash == w.trash || v.trash == w.trash - {s} || (s in w.trash && v.trash == w.trash[s := Torn]))
  }

  lemma CleaningKeepsFate(w: World, v: World, s: Slot)
    requires Sound(w) && IsCommitted(w, s) && Cleaning(w, v, s)
    ensures Kept(w, v)
  {
    SameHomes(w, v);
  }

  lemma TakeLeasesKeepsFate(w: World, op: OpId, keys: set<Key>)
    requires Sound(w) && DeletesOnly(w.leases, op)
    requires forall k <- keys | k in w.leases :: w.leases[k].kind == Delete
    ensures Kept(w, TakeLeases(w, op, keys))
  {
    SameHomes(w, TakeLeases(w, op, keys));
  }

  /** Delete leases may go at any time. */
  lemma FewerLeasesKeepFate(w: World, v: World)
    requires Sound(w) && v == w.(leases := v.leases)
    requires forall k <- v.leases :: k in w.leases && v.leases[k] == w.leases[k]
    requires forall k <- w.leases | w.leases[k].kind == Upload :: k in v.leases
    ensures Kept(w, v)
  {
    SameHomes(w, v);
  }

  lemma RecordKeepsFate(w: World, op: OpId, keys: set<Key>)
    requires Sound(w) && DeletesOnly(w.leases, op)
    requires (forall s <- w.intents :: s.op != op) && (forall s <- w.trash :: s.op != op)
    ensures Kept(w, RecordIntents(w, op, keys))
  {
    SameHomes(w, RecordIntents(w, op, keys));
  }

  /** Dropping the intents of an operation is harmless once none of its payloads depends on them. */
  lemma DropIntentsKeepsFate(w: World, op: OpId, phase: Phase)
    requires Sound(w) && DeletesOnly(w.leases, op)
    requires forall s <- w.intents | s.op == op && w.intents[s] == phase :: s !in w.trash
    ensures Kept(w, DropIntents(w, op, phase))
  {
    SameHomes(w, DropIntents(w, op, phase));
  }

  /* ------------------------------ what a fate amounts to ------------------------------ */

  /** Once recovery finds nothing of a deletion any more, the fate is the whole state. */
  lemma QuietIsDetermined(w: World, v: World)
    requires Quiet(w) && Quiet(v) && SameFate(w, v)
    ensures w == v
  {
    forall k | k in w.source ensures k in v.source && v.source[k] == w.source[k] {
      assert Home(w, k, w.source[k]);
    }
    forall k | k in v.source ensures k in w.source {
      assert Home(v, k, v.source[k]);
    }
    assert forall s :: s in w.trash <==> Stray(w, s);
    assert forall s :: s in v.trash <==> Stray(v, s);
  }
}
