/** The batch commands of the backend: one verdict per distinct item on every branch. */
module BatchWorkflows {
  import opened Wrappers
  import opened Batch
  import DeleteWorld
  import LibraryDelete
  import DeleteBatch
  import DeleteOperation

  const NOT_FOUND := "session_not_found"
  const DELETE_FAILED := "session_delete_failed"
  const DOWNLOAD_FAILED := "download_enqueue_failed"
  const LIBRARY_BUSY := "library_delete_busy"
  const LIBRARY_FAILED := "library_delete_failed"

  /** Keeps each item at its first occurrence. */
  method UniqueItems(items: seq<Item>) returns (u: seq<Item>)
    ensures u == Unique(items)
  {
    var seen: set<Item> := {};
    u := [];
    for n := 0 to |items|
      invariant u == Unique(items[..n])
      invariant forall x :: x in seen <==> x in items[..n]
    {
      assert items[..n + 1] == items[..n] + [items[n]] && items[..n + 1][..n] == items[..n];
      if items[n] !in seen {
        seen := seen + {items[n]};
        u := u + [items[n]];
      }
    }
    assert items[..|items|] == items;
  }

  /* ------------------------------ sessions ------------------------------ */

  /** Starts one download per distinct session; a session that cannot be enqueued does not stop the rest. */
  method DownloadSessions(ids: seq<Item>, enqueue: Item -> Option<string>) returns (results: seq<WireResult<string>>)
    ensures Items(results) == Unique(ids) && Covers(ids, Items(results))
    ensures forall r <- results :: match enqueue(r.item)
                                   case Some(job) => r == Success(r.item, job)
                                   case None => r == Failure(r.item, DOWNLOAD_FAILED)
  {
    var unique := UniqueItems(ids);
    results := [];
    for n := 0 to |unique|
      invariant Items(results) == unique[..n]
      invariant forall r <- results :: match enqueue(r.item)
                                       case Some(job) => r == Success(r.item, job)
                                       case None => r == Failure(r.item, DOWNLOAD_FAILED)
    {
      ghost var before := results;
      match enqueue(unique[n]) {
        case Some(job) => results := results + [Success(unique[n], job)];
        case None => results := results + [Failure(unique[n], DOWNLOAD_FAILED)];
      }
      assert Items(results) == Items(before) + [unique[n]];
    }
  }

  /** Deletes sessions of a device: a demo device answers from its list, a real one is asked item by item,
    * and its catalog is read again afterwards. */
  method DeleteSessions(ids: seq<Item>, demo: Option<seq<Item>>, delete: Item -> bool, refresh: Option<seq<Item>>)
    returns (results: seq<WireResult<()>>, sessions: Option<seq<Item>>, refreshFailed: bool)
    ensures Items(results) == Unique(ids) && Covers(ids, Items(results))
    ensures demo.Some? ==> forall r <- results ::
      r == if r.item in demo.value then Success(r.item, ()) else Failure(r.item, NOT_FOUND)
    ensures demo.None? ==> forall r <- results ::
      r == if delete(r.item) then Success(r.item, ()) else Failure(r.item, DELETE_FAILED)
    ensures demo.Some? ==> sessions == Some(Filter(demo.value, set x | x in ids)) && !refreshFailed
    ensures demo.None? ==> sessions == refresh && (refreshFailed <==> refresh.None?)
  {
    var unique := UniqueItems(ids);
    results := [];
    for n := 0 to |unique|
      invariant Items(results) == unique[..n]
      invariant demo.Some? ==> forall r <- results ::
        r == if r.item in demo.value then Success(r.item, ()) else Failure(r.item, NOT_FOUND)
      invariant demo.None? ==> forall r <- results ::
        r == if delete(r.item) then Success(r.item, ()) else Failure(r.item, DELETE_FAILED)
    {
      ghost var before := results;
      var id := unique[n];
      if demo.Some? {
        results := results + [if id in demo.value then Success(id, ()) else Failure(id, NOT_FOUND)];
      } else {
        results := results + [if delete(id) then Success(id, ()) else Failure(id, DELETE_FAILED)];
      }
      assert Items(results) == Items(before) + [id];
    }
    if demo.Some? {
      sessions, refreshFailed := Some(Filter(demo.value, set x | x in unique)), false;
      assert (set x | x in unique) == (set x | x in ids);
    } else {
      sessions, refreshFailed := refresh, refresh.None?;
    }
  }

  /* ------------------------------ library entries ------------------------------ */

  datatype Entry = Entry(key: Item, deviceId: string, sessionId: string)

  ghost predicate InLibrary(library: seq<Entry>, key: Item) {
    exists e <- library :: e.key == key
  }

  /** The in-memory application state. */
  class AppData {
    var library: seq<Entry>
    var libraryDeleteKeys: set<Item>
    var storeRevision: nat

    /** Claims all keys or none. */
    method ClaimLibraryDeleteKeys(keys: seq<Item>) returns (ok: bool)
      modifies this`libraryDeleteKeys
      ensures ok <==> forall k <- keys :: k !in old(libraryDeleteKeys)
      ensures libraryDeleteKeys == if ok then old(libraryDeleteKeys) + (set k | k in keys) else old(libraryDeleteKeys)
    {
      if exists k <- keys :: k in libraryDeleteKeys {
        return false;
      }
      libraryDeleteKeys := libraryDeleteKeys + set k | k in keys;
      return true;
    }

    method ReleaseLibraryDeleteKeys(keys: seq<Item>)
      modifies this`libraryDeleteKeys
      ensures libraryDeleteKeys == old(libraryDeleteKeys) - set k | k in keys
    {
      for n := 0 to |keys|
        invariant libraryDeleteKeys == old(libraryDeleteKeys) - set k | k in keys[..n]
      {
        libraryDeleteKeys := libraryDeleteKeys - {keys[n]};
        assert keys[..n + 1] == keys[..n] + [keys[n]];
      }
      assert keys[..|keys|] == keys;
    }
  }

  function KeysIn(library: seq<Entry>): set<Item> {
    set e | e in library :: e.key
  }

  /** The candidate is the first entry of its key. */
  ghost predicate IsFirst(library: seq<Entry>, c: DeleteBatch.DeleteEntry) {
    exists i | 0 <= i < |library| ::
      library[i] == Entry(c.key, c.deviceId, c.sessionId) && forall j | 0 <= j < i :: library[j].key != c.key
  }

  /** Looks up every key, in order: what is not in the library counts as deleted already. */
  method Lookup(library: seq<Entry>, keys: seq<Item>)
    returns (results: seq<WireResult<()>>, candidates: seq<DeleteBatch.DeleteEntry>)
    requires Distinct(keys)
    ensures Items(results) == Filter(keys, KeysIn(library))
    ensures KeysOf(candidates) == Filter(keys, (set k | k in keys) - KeysIn(library))
    ensures forall c <- candidates :: IsFirst(library, c)
    ensures forall r <- results :: r.Success? && r.item in keys && !InLibrary(library, r.item)
    ensures forall c <- candidates :: c.key in keys && InLibrary(library, c.key)
    ensures forall k <- keys :: k in Items(results) || k in KeysOf(candidates)
    ensures Distinct(Items(results)) && Distinct(KeysOf(candidates))
  {
    results, candidates := [], [];
    ghost var absent := (set k | k in keys) - KeysIn(library);
    for n := 0 to |keys|
      invariant Items(results) == Filter(keys[..n], KeysIn(library)) && KeysOf(candidates) == Filter(keys[..n], absent)
      invariant forall c <- candidates :: IsFirst(library, c)
      invariant forall r <- results :: r.Success?
    {
      FilterNext(keys, n, KeysIn(library));
      FilterNext(keys, n, absent);
      var i := FirstOf(library, keys[n]);
      if i == |library| {
        ItemsGrow(results, Success(keys[n], ()));
        results := results + [Success(keys[n], ())];
      } else {
        assert library[i] in library;
        var c := DeleteBatch.DeleteEntry(keys[n], library[i].deviceId, library[i].sessionId);
        assert IsFirst(library, c);
        KeysGrow(candidates, c);
        candidates := candidates + [c];
      }
    }
    assert keys[..|keys|] == keys;
    LookedUp(library, keys, results, candidates);
  }

  lemma ItemsGrow(results: seq<WireResult<()>>, r: WireResult<()>)
    ensures Items(results + [r]) == Items(results) + [r.item]
  {
  }

  lemma KeysGrow(candidates: seq<DeleteBatch.DeleteEntry>, c: DeleteBatch.DeleteEntry)
    ensures KeysOf(candidates + [c]) == KeysOf(candidates) + [c.key]
  {
  }

  lemma LookedUp(library: seq<Entry>, keys: seq<Item>, results: seq<WireResult<()>>,
                 candidates: seq<DeleteBatch.DeleteEntry>)
    requires Distinct(keys) && forall r <- results :: r.Success?
    requires Items(results) == Filter(keys, KeysIn(library))
    requires KeysOf(candidates) == Filter(keys, (set k | k in keys) - KeysIn(library))
    ensures forall r <- results :: r.Success? && r.item in keys && !InLibrary(library, r.item)
    ensures forall c <- candidates :: c.key in keys && InLibrary(library, c.key)
    ensures forall k <- keys :: k in Items(results) || k in KeysOf(candidates)
    ensures Distinct(Items(results)) && Distinct(KeysOf(candidates))
  {
    FilterIsDistinct(keys, KeysIn(library));
    FilterIsDistinct(keys, (set k | k in keys) - KeysIn(library));
    assert forall k :: InLibrary(library, k) <==> k in KeysIn(library);
    forall r | r in results ensures r.item in Items(results) {
      var i :| 0 <= i < |results| && results[i] == r;
      assert Items(results)[i] == r.item;
    }
    forall c | c in candidates ensures c.key in KeysOf(candidates) {
      var i :| 0 <= i < |candidates| && candidates[i] == c;
      assert KeysOf(candidates)[i] == c.key;
    }
  }

  method FirstOf(library: seq<Entry>, key: Item) returns (i: nat)
    ensures i <= |library| && (i < |library| ==> library[i].key == key)
    ensures forall j | 0 <= j < i :: library[j].key != key
  {
    i := 0;
    while i < |library| && library[i].key != key
      invariant i <= |library|
      invariant forall j | 0 <= j < i :: library[j].key != key
    {
      i := i + 1;
    }
  }

  function KeysOf(entries: seq<DeleteBatch.DeleteEntry>): seq<Item> {
    seq(|entries|, i requires 0 <= i < |entries| => entries[i].key)
  }

  lemma KeysOfMembers(entries: seq<DeleteBatch.DeleteEntry>)
    ensures forall k :: k in KeysOf(entries) <==> exists e <- entries :: e.key == k
    ensures DeleteOperation.Names(DeleteBatch.FirstKeys(entries)) == set k | k in KeysOf(entries)
  {
    forall k ensures k in KeysOf(entries) <==> exists e <- entries :: e.key == k {
      if k in KeysOf(entries) {
        var i :| 0 <= i < |entries| && entries[i].key == k;
        assert entries[i] in entries;
      }
      if e :| e in entries && e.key == k {
        var i :| 0 <= i < |entries| && entries[i] == e;
        assert KeysOf(entries)[i] == k;
      }
    }
  }

  lemma AgreeWhenDistinct(entries: seq<DeleteBatch.DeleteEntry>)
    requires Distinct(KeysOf(entries))
    ensures DeleteBatch.Agree(entries)
  {
    forall d, e | d in entries && e in entries && d.key == e.key ensures d == e {
      var i :| 0 <= i < |entries| && entries[i] == d;
      var j :| 0 <= j < |entries| && entries[j] == e;
      assert KeysOf(entries)[i] == KeysOf(entries)[j];
    }
  }

  lemma {:induction false} FirstKeysOfDistinct(entries: seq<DeleteBatch.DeleteEntry>)
    requires Distinct(KeysOf(entries))
    ensures DeleteBatch.FirstKeys(entries) == KeysOf(entries)
  {
    if entries == [] {
    } else {
      var n := |entries| - 1;
      var before := entries[..n];
      assert KeysOf(entries) == KeysOf(before) + [entries[n].key];
      assert KeysOf(entries)[..n] == KeysOf(before);
      DistinctPrefix(KeysOf(entries), n);
      FirstKeysOfDistinct(before);
    }
  }

  lemma DistinctPrefix(keys: seq<Item>, n: nat)
    requires Distinct(keys) && n < |keys|
    ensures Distinct(keys[..n]) && keys[n] !in keys[..n]
  {
  }

  /** Every effect takes place that leads to a commit, and the revision is still the one that was read. */
  ghost predicate Carries(w: DeleteWorld.World, op: DeleteWorld.OpId, expected: nat, keys: seq<Item>,
                          io: LibraryDelete.Io) {
    && io(LibraryDelete.Read(3)) == LibraryDelete.Done && io(LibraryDelete.TakeLease(op)) == LibraryDelete.Done
    && DeleteOperation.Stages(w, op, keys, io)
    && io(LibraryDelete.Record(op)) == LibraryDelete.Done && io(LibraryDelete.Cas(op)) == LibraryDelete.Done
    && expected == w.revision
  }

  datatype Attempt = Removed(revision: nat) | Busy | NotRemoved | Died

  /** No row is taken, and no directory either, other than those of `keys` that have gone astray. */
  ghost predicate NoneTaken(w: DeleteWorld.World, v: DeleteWorld.World, op: DeleteWorld.OpId, keys: set<Item>) {
    exists lost: set<Item> :: lost <= keys && DeleteOperation.Strayed(w, v, op, lost)
  }

  lemma KeptTakesNone(w: DeleteWorld.World, v: DeleteWorld.World, op: DeleteWorld.OpId, keys: set<Item>)
    requires DeleteWorld.Kept(w, v)
    ensures NoneTaken(w, v, op, keys)
  {
    assert DeleteOperation.Strayed(w, v, op, {});
  }

  lemma RefusalTakesNone(w: DeleteWorld.World, v: DeleteWorld.World, op: DeleteWorld.OpId, keys: seq<Item>,
                         io: LibraryDelete.Io)
    requires DeleteWorld.Kept(w, v) || DeleteOperation.Strayed(w, v, op, DeleteOperation.LostBy(w, op, keys, io))
    ensures NoneTaken(w, v, op, DeleteOperation.Names(keys))
  {
    if DeleteWorld.Kept(w, v) {
      KeptTakesNone(w, v, op, DeleteOperation.Names(keys));
    }
  }

  /** One of the entries is leased, or is being uploaded. */
  predicate Held(leases: map<Item, DeleteWorld.Lease>, uploading: set<Item>, keys: seq<Item>) {
    exists k <- keys :: k in leases || k in uploading
  }

  /** The deletion itself: refused while an entry is leased or being uploaded, and otherwise one operation
    * over all candidates. */
  method TryDelete(store: LibraryDelete.AppStore, disk: LibraryDelete.Disk, op: DeleteWorld.OpId, expected: nat,
                   candidates: seq<DeleteBatch.DeleteEntry>, uploading: set<Item>, io: LibraryDelete.Io)
    returns (attempt: Attempt)
    requires DeleteWorld.Sound(LibraryDelete.View(store, disk))
    requires DeleteOperation.Fresh(LibraryDelete.View(store, disk), op)
    requires Distinct(KeysOf(candidates)) && candidates != []
    modifies store, disk
    ensures attempt.Removed? ==>
      && DeleteOperation.Gone(old(LibraryDelete.View(store, disk)), LibraryDelete.View(store, disk),
                              set k | k in KeysOf(candidates))
      && attempt.revision == store.revision
    ensures LibraryDelete.NoHalt(io) ==> !attempt.Died?
    ensures attempt.Busy? || attempt.NotRemoved? ==>
      NoneTaken(old(LibraryDelete.View(store, disk)), LibraryDelete.View(store, disk), op,
                set k | k in KeysOf(candidates))
    ensures Held(old(store.leases), uploading, KeysOf(candidates)) ==>
      !attempt.Removed? && LibraryDelete.View(store, disk) == old(LibraryDelete.View(store, disk))
    ensures !attempt.Died? ==>
      (attempt.Busy? <==>
        io(LibraryDelete.Read(3)) == LibraryDelete.Done && Held(old(store.leases), uploading, KeysOf(candidates)))
    ensures !attempt.Died? ==>
      (attempt.Removed? <==>
        && !Held(old(store.leases), uploading, KeysOf(candidates))
        && Carries(old(LibraryDelete.View(store, disk)), op, expected, KeysOf(candidates), io))
  {
    ghost var w := LibraryDelete.View(store, disk);
    DeleteWorld.KeptSame(w);
    KeptTakesNone(w, w, op, set k | k in KeysOf(candidates));
    if io(LibraryDelete.Read(3)) != LibraryDelete.Done {
      return if io(LibraryDelete.Read(3)) == LibraryDelete.Halt then Died else NotRemoved;
    }
    var keys := KeysOf(candidates);
    for n := 0 to |keys|
      invariant LibraryDelete.View(store, disk) == old(LibraryDelete.View(store, disk))
      invariant forall k <- keys[..n] :: k !in store.leases && k !in uploading
    {
      if keys[n] in store.leases || keys[n] in uploading {
        assert Held(store.leases, uploading, keys);
        return Busy;
      }
      assert keys[..n + 1] == keys[..n] + [keys[n]];
    }
    assert keys[..|keys|] == keys;
    attempt := DeleteFree(store, disk, op, expected, candidates, io);
  }

  /** The operation on entries that are neither leased nor being uploaded. */
  method DeleteFree(store: LibraryDelete.AppStore, disk: LibraryDelete.Disk, op: DeleteWorld.OpId, expected: nat,
                    candidates: seq<DeleteBatch.DeleteEntry>, io: LibraryDelete.Io)
    returns (attempt: Attempt)
    requires DeleteWorld.Sound(LibraryDelete.View(store, disk))
    requires DeleteOperation.Fresh(LibraryDelete.View(store, disk), op)
    requires Distinct(KeysOf(candidates)) && candidates != []
    requires (forall k <- KeysOf(candidates) :: k !in store.leases) && io(LibraryDelete.Read(3)) == LibraryDelete.Done
    modifies store, disk
    ensures !attempt.Busy?
    ensures attempt.Removed? ==>
      && DeleteOperation.Gone(old(LibraryDelete.View(store, disk)), LibraryDelete.View(store, disk),
                              set k | k in KeysOf(candidates))
      && attempt.revision == store.revision
    ensures LibraryDelete.NoHalt(io) ==> !attempt.Died?
    ensures attempt.NotRemoved? ==>
      NoneTaken(old(LibraryDelete.View(store, disk)), LibraryDelete.View(store, disk), op,
                set k | k in KeysOf(candidates))
    ensures !attempt.Died? ==>
      (attempt.Removed? <==> Carries(old(LibraryDelete.View(store, disk)), op, expected, KeysOf(candidates), io))
  {
    ghost var w := LibraryDelete.View(store, disk);
    KeysOfMembers(candidates);
    AgreeWhenDistinct(candidates);
    FirstKeysOfDistinct(candidates);
    var r := DeleteOperation.DeleteEntries(store, disk, op, expected, candidates, io);
    if r.Rejected? {
      RefusalTakesNone(w, LibraryDelete.View(store, disk), op, KeysOf(candidates), io);
    }
    if r != DeleteOperation.Died {
      DeletedWhenCarried(w, LibraryDelete.View(store, disk), op, expected, candidates, io, r);
    }
    return match r
      case Deleted(revision, _) => Removed(revision)
      case Rejected(_) => NotRemoved
      case Died => Died;
  }

  lemma DeletedWhenCarried(w: DeleteWorld.World, u: DeleteWorld.World, op: DeleteWorld.OpId, expected: nat,
                           candidates: seq<DeleteBatch.DeleteEntry>, io: LibraryDelete.Io,
                           r: DeleteOperation.DeleteResult)
    requires candidates != [] && DeleteBatch.Agree(candidates) && r != DeleteOperation.Died
    requires DeleteBatch.FirstKeys(candidates) == KeysOf(candidates)
    requires (forall k <- KeysOf(candidates) :: k !in w.leases) && io(LibraryDelete.Read(3)) == LibraryDelete.Done
    requires DeleteOperation.Goes(w, op, candidates, io) ==>
      if DeleteOperation.Stages(w, op, KeysOf(candidates), io)
      then DeleteOperation.StagedReport(w, u, r, op, expected, KeysOf(candidates), io)
      else DeleteOperation.UnstagedReport(w, u, r, op, KeysOf(candidates))
    requires r == DeleteOperation.Rejected(DeleteOperation.LeaseDenied) <==>
      !DeleteOperation.Granted(w, op, KeysOf(candidates), io)
    ensures r.Deleted? <==> Carries(w, op, expected, KeysOf(candidates), io)
  {
  }

  function Verdicts(keys: seq<Item>, attempt: Attempt): seq<WireResult<()>> {
    seq(|keys|, i requires 0 <= i < |keys| =>
      if attempt.Removed? then Success(keys[i], ())
      else Failure(keys[i], if attempt.Busy? then LIBRARY_BUSY else LIBRARY_FAILED))
  }

  function Without(library: seq<Entry>, keys: seq<Item>): seq<Entry> {
    if library == [] then []
    else (if library[0].key in keys then [] else [library[0]]) + Without(library[1..], keys)
  }

  /** What stays, stays in order: entry by entry. */
  lemma {:induction false} WithoutInTwo(a: seq<Entry>, b: seq<Entry>, keys: seq<Item>)
    ensures Without(a + b, keys) == Without(a, keys) + Without(b, keys)
  {
    if a == [] {
      assert a + b == b;
    } else {
      assert (a + b)[0] == a[0] && (a + b)[1..] == a[1..] + b;
      WithoutInTwo(a[1..], b, keys);
      var first := if a[0].key in keys then [] else [a[0]];
      assert Without(a + b, keys) == first + (Without(a[1..], keys) + Without(b, keys));
    }
  }

  lemma WithoutOne(e: Entry, keys: seq<Item>)
    ensures Without([e], keys) == if e.key in keys then [] else [e]
  {
    assert [e][1..] == [];
  }

  lemma {:induction false} WithoutLacks(library: seq<Entry>, keys: seq<Item>)
    ensures forall e :: e in Without(library, keys) <==> e in library && e.key !in keys
  {
    if library == [] {
    } else {
      WithoutLacks(library[1..], keys);
    }
  }

  /** Two lists of verdicts that share no item cover what they cover together. */
  lemma CoversInTwo(keys: seq<Item>, first: seq<WireResult<()>>, second: seq<WireResult<()>>)
    requires Distinct(Items(first)) && Distinct(Items(second))
    requires forall k :: !(k in Items(first) && k in Items(second))
    requires forall k :: k in keys <==> k in Items(first) || k in Items(second)
    ensures Covers(keys, Items(first + second))
  {
    var a, b := Items(first), Items(second);
    assert Items(first + second) == a + b;
    forall i, j | 0 <= i < j < |a + b| ensures (a + b)[i] != (a + b)[j] {
      assert i < |a| ==> (a + b)[i] in a;
      assert j >= |a| ==> (a + b)[j] in b;
    }
  }

  lemma Separate(library: seq<Entry>, keys: seq<Item>, results: seq<WireResult<()>>,
                 candidates: seq<DeleteBatch.DeleteEntry>)
    requires forall r <- results :: r.item in keys && !InLibrary(library, r.item)
    requires forall c <- candidates :: c.key in keys && InLibrary(library, c.key)
    requires forall k <- keys :: k in Items(results) || k in KeysOf(candidates)
    ensures forall k :: !(k in Items(results) && k in KeysOf(candidates))
    ensures forall k :: k in keys <==> k in Items(results) || k in KeysOf(candidates)
    ensures forall k <- keys :: k in KeysOf(candidates) <==> InLibrary(library, k)
    ensures (set k | k in KeysOf(candidates)) == set k | k in keys && InLibrary(library, k)
    ensures candidates == [] ==> !Present(library, keys)
  {
  }

  /** The claimed candidates are deleted, the claim is given back, and the memory follows the store. */
  method RemoveCandidates(app: AppData, store: LibraryDelete.AppStore, disk: LibraryDelete.Disk, op: DeleteWorld.OpId,
                          candidates: seq<DeleteBatch.DeleteEntry>, uploading: set<Item>, io: LibraryDelete.Io)
    returns (attempt: Attempt)
    requires DeleteWorld.Sound(LibraryDelete.View(store, disk))
    requires DeleteOperation.Fresh(LibraryDelete.View(store, disk), op)
    requires Distinct(KeysOf(candidates)) && candidates != []
    modifies app, store, disk
    ensures LibraryDelete.NoHalt(io) ==> !attempt.Died?
    ensures !attempt.Died? ==> app.libraryDeleteKeys == old(app.libraryDeleteKeys) - set k | k in KeysOf(candidates)
    ensures attempt.Removed? ==>
      && DeleteOperation.Gone(old(LibraryDelete.View(store, disk)), LibraryDelete.View(store, disk),
                              set k | k in KeysOf(candidates))
      && app.storeRevision == store.revision && app.library == Without(old(app.library), KeysOf(candidates))
    ensures attempt.Busy? || attempt.NotRemoved? ==>
      && app.library == old(app.library) && app.storeRevision == old(app.storeRevision)
      && NoneTaken(old(LibraryDelete.View(store, disk)), LibraryDelete.View(store, disk), op,
                   set k | k in KeysOf(candidates))
    ensures !attempt.Died? ==>
      (attempt.Busy? <==>
        io(LibraryDelete.Read(3)) == LibraryDelete.Done && Held(old(store.leases), uploading, KeysOf(candidates)))
    ensures !attempt.Died? ==>
      (attempt.Removed? <==>
        && !Held(old(store.leases), uploading, KeysOf(candidates))
        && Carries(old(LibraryDelete.View(store, disk)), op, old(app.storeRevision), KeysOf(candidates), io))
  {
    attempt := TryDelete(store, disk, op, app.storeRevision, candidates, uploading, io);
    if attempt.Died? {
      return;
    }
    app.ReleaseLibraryDeleteKeys(KeysOf(candidates));
    if attempt.Removed? {
      app.library := Without(app.library, KeysOf(candidates));
      app.storeRevision := attempt.revision;
    }
  }

  ghost predicate Taken(claims: set<Item>, keys: seq<Item>) {
    exists k <- keys :: k in claims
  }

  /** Claims the candidates, and deletes them if nobody else has claimed one. */
  method ClaimAndRemove(app: AppData, store: LibraryDelete.AppStore, disk: LibraryDelete.Disk, op: DeleteWorld.OpId,
                        candidates: seq<DeleteBatch.DeleteEntry>, uploading: set<Item>, io: LibraryDelete.Io)
    returns (attempt: Attempt)
    requires DeleteWorld.Sound(LibraryDelete.View(store, disk))
    requires DeleteOperation.Fresh(LibraryDelete.View(store, disk), op)
    requires Distinct(KeysOf(candidates))
    modifies app, store, disk
    ensures LibraryDelete.NoHalt(io) ==> !attempt.Died?
    ensures !attempt.Died? ==> app.libraryDeleteKeys == old(app.libraryDeleteKeys)
    ensures attempt.Removed? ==>
      && DeleteOperation.Gone(old(LibraryDelete.View(store, disk)), LibraryDelete.View(store, disk),
                              set k | k in KeysOf(candidates))
      && app.storeRevision == store.revision && app.library == Without(old(app.library), KeysOf(candidates))
    ensures attempt.Busy? || attempt.NotRemoved? ==>
      && app.library == old(app.library) && app.storeRevision == old(app.storeRevision)
      && NoneTaken(old(LibraryDelete.View(store, disk)), LibraryDelete.View(store, disk), op,
                   set k | k in KeysOf(candidates))
    ensures Taken(old(app.libraryDeleteKeys), KeysOf(candidates)) ==>
      attempt == Busy && LibraryDelete.View(store, disk) == old(LibraryDelete.View(store, disk))
    ensures !attempt.Died? ==>
      (attempt.Busy? <==>
        || Taken(old(app.libraryDeleteKeys), KeysOf(candidates))
        || (io(LibraryDelete.Read(3)) == LibraryDelete.Done && Held(old(store.leases), uploading, KeysOf(candidates))))
    ensures !attempt.Died? ==>
      (attempt.Removed? <==>
        && candidates != [] && !Taken(old(app.libraryDeleteKeys), KeysOf(candidates))
        && !Held(old(store.leases), uploading, KeysOf(candidates))
        && Carries(old(LibraryDelete.View(store, disk)), op, old(app.storeRevision), KeysOf(candidates), io))
  {
    DeleteWorld.KeptSame(LibraryDelete.View(store, disk));
    KeptTakesNone(LibraryDelete.View(store, disk), LibraryDelete.View(store, disk), op,
                  set k | k in KeysOf(candidates));
    var claimed := app.ClaimLibraryDeleteKeys(KeysOf(candidates));
    if !claimed {
      return Busy;
    }
    if candidates == [] {
      return NotRemoved;
    }
    attempt := RemoveCandidates(app, store, disk, op, candidates, uploading, io);
  }

  lemma WithoutWanted(library: seq<Entry>, requested: seq<Item>)
    ensures forall e ::
      e in Without(library, Wanted(library, requested)) <==> e in library && e.key !in requested
  {
    WithoutLacks(library, Wanted(library, requested));
  }

  /** What is requested of the library, in order. */
  function Wanted(library: seq<Entry>, requested: seq<Item>): seq<Item> {
    Filter(Unique(requested), (set k | k in requested) - KeysIn(library))
  }

  /** Another command of this process is already deleting something of what is requested. */
  ghost predicate Claimed(library: seq<Entry>, claims: set<Item>, requested: seq<Item>) {
    exists k <- requested :: InLibrary(library, k) && k in claims
  }

  /** Something of what is requested is leased, or is being uploaded. */
  ghost predicate Leased(library: seq<Entry>, leases: map<Item, DeleteWorld.Lease>, uploading: set<Item>,
                         requested: seq<Item>) {
    exists k <- requested :: InLibrary(library, k) && (k in leases || k in uploading)
  }

  ghost predicate Present(library: seq<Entry>, requested: seq<Item>) {
    exists k <- requested :: InLibrary(library, k)
  }

  /** Removes library entries as one batch.  The reply covers the request on every branch: first what is not
    * there, then what is, each in order; its verdicts on the entries that exist are one verdict, and it is the
    * truth about the durable state.  The removal succeeds exactly if there is something to remove that nobody
    * holds, and every effect takes place that leads to the commit. */
  method RemoveLibraryEntries(app: AppData, store: LibraryDelete.AppStore, disk: LibraryDelete.Disk,
                              op: DeleteWorld.OpId, requested: seq<Item>, uploading: set<Item>, io: LibraryDelete.Io)
    returns (reply: Option<seq<WireResult<()>>>, ghost removed: bool)
    requires DeleteWorld.Sound(LibraryDelete.View(store, disk))
    requires DeleteOperation.Fresh(LibraryDelete.View(store, disk), op)
    modifies app, store, disk
    ensures reply.Some? ==> Covers(requested, Items(reply.value))
    ensures reply.Some? ==>
      Items(reply.value) == Filter(Unique(requested), KeysIn(old(app.library))) + Wanted(old(app.library), requested)
    ensures reply.Some? ==> forall r <- reply.value ::
      r.Success? <==> removed || !InLibrary(old(app.library), r.item)
    ensures reply.Some? ==> app.libraryDeleteKeys == old(app.libraryDeleteKeys)
    ensures reply.Some? && removed ==>
      && DeleteOperation.Gone(old(LibraryDelete.View(store, disk)), LibraryDelete.View(store, disk),
                              set k | k in requested && InLibrary(old(app.library), k))
      && app.storeRevision == store.revision && old(app.storeRevision) == old(store.revision)
      && app.library == Without(old(app.library), Wanted(old(app.library), requested))
      && (forall e :: e in app.library <==> e in old(app.library) && e.key !in requested)
    ensures reply.Some? && !removed ==>
      && app.library == old(app.library) && app.storeRevision == old(app.storeRevision)
      && NoneTaken(old(LibraryDelete.View(store, disk)), LibraryDelete.View(store, disk), op,
                   set k | k in requested && InLibrary(old(app.library), k))
    ensures Claimed(old(app.library), old(app.libraryDeleteKeys), requested) ==>
      reply.Some? && !removed && LibraryDelete.View(store, disk) == old(LibraryDelete.View(store, disk))
    ensures reply.Some? ==> forall r <- reply.value | r.Failure? ::
      r.error == if Claimed(old(app.library), old(app.libraryDeleteKeys), requested) ||
                    (io(LibraryDelete.Read(3)) == LibraryDelete.Done &&
                     Leased(old(app.library), old(store.leases), uploading, requested))
                 then LIBRARY_BUSY else LIBRARY_FAILED
    ensures reply.Some? ==>
      (removed <==>
        && Present(old(app.library), requested)
        && !Claimed(old(app.library), old(app.libraryDeleteKeys), requested)
        && !Leased(old(app.library), old(store.leases), uploading, requested)
        && Carries(old(LibraryDelete.View(store, disk)), op, old(app.storeRevision),
                   Wanted(old(app.library), requested), io))
    ensures LibraryDelete.NoHalt(io) ==> reply.Some?
  {
    ghost var library := app.library;
    var keys := UniqueItems(requested);
    var results, candidates := Lookup(app.library, keys);
    Separate(app.library, keys, results, candidates);
    Asked(library, requested, candidates, app.libraryDeleteKeys, store.leases, uploading);
    var attempt := ClaimAndRemove(app, store, disk, op, candidates, uploading, io);
    if attempt.Died? {
      return None, false;
    }
    Answer(requested, keys, results, KeysOf(candidates), attempt);
    WithoutWanted(library, requested);
    return Some(results + Verdicts(KeysOf(candidates), attempt)), attempt.Removed?;
  }

  /** What stands in the way of the candidates is what stands in the way of the request. */
  lemma Asked(library: seq<Entry>, requested: seq<Item>, candidates: seq<DeleteBatch.DeleteEntry>, claims: set<Item>,
              leases: map<Item, DeleteWorld.Lease>, uploading: set<Item>)
    requires KeysOf(candidates) == Filter(Unique(requested), (set k | k in Unique(requested)) - KeysIn(library))
    ensures KeysOf(candidates) == Wanted(library, requested)
    ensures candidates != [] <==> Present(library, requested)
    ensures Taken(claims, KeysOf(candidates)) <==> Claimed(library, claims, requested)
    ensures Held(leases, uploading, KeysOf(candidates)) <==> Leased(library, leases, uploading, requested)
    ensures (set k | k in KeysOf(candidates)) == set k | k in requested && InLibrary(library, k)
  {
    assert (set k | k in Unique(requested)) == set k | k in requested;
    assert forall k :: InLibrary(library, k) <==> k in KeysIn(library);
    assert forall k :: k in KeysOf(candidates) <==> k in requested && k in KeysIn(library);
    assert candidates != [] ==> KeysOf(candidates)[0] in KeysOf(candidates);
  }

  lemma Answer(requested: seq<Item>, keys: seq<Item>, results: seq<WireResult<()>>, candidateKeys: seq<Item>,
               attempt: Attempt)
    requires keys == Unique(requested) && Distinct(Items(results)) && Distinct(candidateKeys)
    requires forall k :: !(k in Items(results) && k in candidateKeys)
    requires forall k :: k in keys <==> k in Items(results) || k in candidateKeys
    requires forall r <- results :: r.Success?
    ensures Covers(requested, Items(results + Verdicts(candidateKeys, attempt)))
    ensures Items(results + Verdicts(candidateKeys, attempt)) == Items(results) + candidateKeys
    ensures forall r <- results + Verdicts(candidateKeys, attempt) ::
      r.Success? <==> attempt.Removed? || r.item !in candidateKeys
    ensures forall r <- results + Verdicts(candidateKeys, attempt) | r.Failure? ::
      r.error == if attempt.Busy? then LIBRARY_BUSY else LIBRARY_FAILED
  {
    assert Items(Verdicts(candidateKeys, attempt)) == candidateKeys;
    CoversInTwo(requested, results, Verdicts(candidateKeys, attempt));
    forall r | r in results ensures r.item !in candidateKeys {
      var i :| 0 <= i < |results| && results[i] == r;
      assert Items(results)[i] == r.item;
    }
  }

  /** Whatever the backend answers to a removal, if it lives to answer, the client accepts the reply. */
  method RemovalIsAccepted(app: AppData, store: LibraryDelete.AppStore, disk: LibraryDelete.Disk, op: DeleteWorld.OpId,
                           requested: seq<Item>, uploading: set<Item>, io: LibraryDelete.Io)
    returns (coverage: Option<Coverage>)
    requires DeleteWorld.Sound(LibraryDelete.View(store, disk))
    requires DeleteOperation.Fresh(LibraryDelete.View(store, disk), op)
    modifies app, store, disk
    ensures coverage.Some? ==> coverage.value == Accepted
  {
    var reply, _ := RemoveLibraryEntries(app, store, disk, op, requested, uploading, io);
    if reply.None? {
      return None;
    }
    var c := ValidateCoverage(Some(requested), Items(reply.value));
    return Some(c);
  }
}
