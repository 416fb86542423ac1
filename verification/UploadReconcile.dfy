/** The startup pass that drops upload leases with no unfinished upload behind them. */
module UploadReconcile {
  import opened DeleteWorld
  import opened LibraryDelete

  datatype JobKind = UploadJob | OtherJob

  datatype Spec = Entry(key: Key) | Missing

  /** A row of the durable transfer store; the spec of an upload names its entry. */
  datatype JobRow = JobRow(kind: JobKind, terminal: bool, spec: Spec)

  /** The entries with an unfinished upload. */
  function Active(jobs: seq<JobRow>): set<Key> {
    set i | 0 <= i < |jobs| && jobs[i].kind == UploadJob && !jobs[i].terminal && jobs[i].spec.Entry? :: jobs[i].spec.key
  }

  /** An unfinished upload of the entry `k`. */
  predicate Unfinished(job: JobRow, k: Key) {
    job == JobRow(UploadJob, false, Entry(k))
  }

  ghost predicate Stale(leases: map<Key, Lease>, active: set<Key>, k: Key) {
    k in leases && leases[k].kind == Upload && k !in active
  }

  /** No upload command holds more than one entry, and none shares its id with a deletion. */
  ghost predicate OneEach(leases: map<Key, Lease>) {
    forall k <- leases, q <- leases | leases[k].kind == Upload && leases[k].op == leases[q].op :: k == q
  }

  method ActiveEntries(jobs: seq<JobRow>) returns (active: set<Key>)
    ensures active == Active(jobs)
  {
    active := {};
    for n := 0 to |jobs|
      invariant active == Active(jobs[..n])
    {
      var job := jobs[n];
      assert jobs[..n + 1] == jobs[..n] + [job];
      if job.kind != UploadJob || job.terminal {
        continue;
      }
      if job.spec.Entry? {
        active := active + {job.spec.key};
      }
    }
    assert jobs[..|jobs|] == jobs;
  }

  lemma OneGoes(leases: map<Key, Lease>, k: Key)
    requires OneEach(leases) && k in leases && leases[k].kind == Upload
    ensures WithoutLeases(leases, leases[k].op) == leases - {k}
    ensures |leases - {k}| == |leases| - 1
  {
  }

  /** A pass that comes to its end leaves exactly the leases of deletions and of unfinished uploads; one
    * that fails has released stale leases only. */
  method ReconcileUploadLeases(store: AppStore, jobs: seq<JobRow>, io: Io) returns (st: Status, removed: nat)
    requires OneEach(store.leases)
    modifies store`leases
    ensures forall k <- old(store.leases) | !Stale(old(store.leases), Active(jobs), k) ::
      k in store.leases && store.leases[k] == old(store.leases)[k]
    ensures forall k <- store.leases :: k in old(store.leases) && store.leases[k] == old(store.leases)[k]
    ensures st == Fine ==> forall k <- store.leases :: !Stale(old(store.leases), Active(jobs), k)
    ensures st == Fine ==> forall k <- old(store.leases) | old(store.leases)[k].kind == Upload ::
      k in store.leases <==> exists i | 0 <= i < |jobs| :: Unfinished(jobs[i], k)
    ensures st == Fine ==> removed == |old(store.leases)| - |store.leases|
    ensures st == Fine <==> ReleasesStale(old(store.leases), Active(jobs), io)
  {
    if io(Read(4)) != Done {
      return StatusOf(io(Read(4))), 0;
    }
    var active := ActiveEntries(jobs);
    assert forall k :: k in active <==> exists i | 0 <= i < |jobs| :: Unfinished(jobs[i], k);
    var leases := store.leases;
    var todo := set k | k in leases && leases[k].kind == Upload && k !in active;
    removed, st := 0, Fine;
    while todo != {} && st == Fine
      invariant forall k <- todo :: k in store.leases && Stale(leases, active, k)
      invariant forall k <- leases :: k in store.leases || (Stale(leases, active, k) && k !in todo)
      invariant forall k <- store.leases :: k in leases && store.leases[k] == leases[k]
      invariant st == Fine ==> forall k <- store.leases | Stale(leases, active, k) :: k in todo
      invariant st == Fine ==> removed == |leases| - |store.leases|
      invariant st == Fine ==>
        forall k | Stale(leases, active, k) && k !in todo :: io(Release(leases[k].op)) == Done
      invariant st != Fine ==> exists k :: Stale(leases, active, k) && io(Release(leases[k].op)) != Done
      decreases todo
    {
      var k :| k in todo;
      todo := todo - {k};
      st := ReleaseOne(store, k, io);
      removed := removed + 1;
    }
  }

  /** Every effect takes place that the pass comes to. */
  ghost predicate ReleasesStale(leases: map<Key, Lease>, active: set<Key>, io: Io) {
    io(Read(4)) == Done && forall k | Stale(leases, active, k) :: io(Release(leases[k].op)) == Done
  }

  method ReleaseOne(store: AppStore, k: Key, io: Io) returns (st: Status)
    requires OneEach(store.leases) && k in store.leases && store.leases[k].kind == Upload
    modifies store`leases
    ensures store.leases == old(store.leases) || store.leases == old(store.leases) - {k}
    ensures st == Fine ==> store.leases == old(store.leases) - {k} && |store.leases| == |old(store.leases)| - 1
    ensures st == Fine <==> io(Release(old(store.leases)[k].op)) == Done
  {
    OneGoes(store.leases, k);
    var op := store.leases[k].op;
    st := store.ReleaseOperationLeases(op, io(Release(op)));
  }

  /** The two states are recovered to the same directories, rows and revision. */
  ghost predicate SameDeletions(w: World, v: World) {
    (forall k, d :: Home(w, k, d) <==> Home(v, k, d)) && w.rows == v.rows && w.revision == v.revision
  }

  /** Everything the application reconciles about its library at startup: first the deletions, then the
    * upload leases.  A run that comes to its end leaves no trace of a deletion, and exactly the leases of
    * unfinished uploads. */
  method RecoverAtBoot(store: AppStore, disk: Disk, jobs: seq<JobRow>, io: Io) returns (r: Recovery)
    requires Sound(View(store, disk)) && OneEach(store.leases)
    modifies store, disk
    ensures SameDeletions(old(View(store, disk)), View(store, disk))
    ensures r == Recovered ==>
      && Quiet(View(store, disk))
      && store.leases.Keys == set k | k in old(store.leases) && old(store.leases)[k].kind == Upload && k in Active(jobs)
    ensures forall k <- old(store.leases) | old(store.leases)[k].kind == Upload && k in Active(jobs) ::
      k in store.leases && store.leases[k] == old(store.leases)[k]
    ensures Uniform(old(View(store, disk))) && Placeable(old(View(store, disk))) &&
            Recovers(old(View(store, disk)), old(disk.folders), io) &&
            ReleasesStale(old(store.leases), Active(jobs), io) ==>
      r == Recovered
  {
    ghost var w := View(store, disk);
    r := RecoverPendingDeletes(store, disk, io);
    UploadLeasesKept(w, View(store, disk));
    if r != Recovered {
      return;
    }
    QuietUploads(w, View(store, disk));
    r := ReconcileQuiet(w, store, disk, jobs, io);
  }

  /** The pass over upload leases once nothing is left of any deletion. */
  method ReconcileQuiet(ghost w: World, store: AppStore, ghost disk: Disk, jobs: seq<JobRow>, io: Io)
    returns (r: Recovery)
    requires OneEach(w.leases) && SameDeletions(w, View(store, disk)) && Quiet(View(store, disk))
    requires forall k <- store.leases :: k in w.leases && w.leases[k] == store.leases[k] && w.leases[k].kind == Upload
    requires forall k <- w.leases | w.leases[k].kind == Upload :: k in store.leases && store.leases[k] == w.leases[k]
    modifies store`leases
    ensures SameDeletions(w, View(store, disk))
    ensures r == Recovered ==>
      && Quiet(View(store, disk))
      && store.leases.Keys == set k | k in w.leases && w.leases[k].kind == Upload && k in Active(jobs)
    ensures forall k <- w.leases | w.leases[k].kind == Upload && k in Active(jobs) ::
      k in store.leases && store.leases[k] == w.leases[k]
    ensures ReleasesStale(w.leases, Active(jobs), io) ==> r == Recovered
  {
    ghost var v := View(store, disk);
    assert forall k :: Stale(v.leases, Active(jobs), k) <==> Stale(w.leases, Active(jobs), k);
    var st, _ := ReconcileUploadLeases(store, jobs, io);
    OnlyLeasesChanged(w, v, View(store, disk));
    r := Ended(st);
  }

  /** Without a trace of a deletion, what is leased is leased for an upload, as it was before. */
  lemma QuietUploads(w: World, v: World)
    requires Kept(w, v) && Quiet(v)
    ensures forall k <- v.leases :: v.leases[k].kind == Upload && k in w.leases && w.leases[k] == v.leases[k]
    ensures forall k <- w.leases | w.leases[k].kind == Upload :: k in v.leases && v.leases[k] == w.leases[k]
  {
    UploadLeasesKept(w, v);
    assert forall k <- v.leases :: k in UploadLeases(v.leases);
  }

  lemma OnlyLeasesChanged(w: World, v: World, u: World)
    requires SameDeletions(w, v) && Quiet(v) && u == v.(leases := u.leases)
    requires forall k <- u.leases :: k in v.leases && v.leases[k] == u.leases[k] && v.leases[k].kind == Upload
    ensures SameDeletions(w, u) && Quiet(u)
  {
    SameHomes(v, u);
  }

  lemma UploadLeasesKept(w: World, v: World)
    requires Kept(w, v)
    ensures forall k <- w.leases | w.leases[k].kind == Upload :: k in v.leases && v.leases[k] == w.leases[k]
    ensures forall k <- v.leases | v.leases[k].kind == Upload :: k in w.leases && w.leases[k] == v.leases[k]
  {
    assert forall k :: k in UploadLeases(w.leases) <==> k in UploadLeases(v.leases);
    assert forall k <- w.leases | w.leases[k].kind == Upload ::
      k in UploadLeases(w.leases) && UploadLeases(v.leases)[k] == w.leases[k];
    assert forall k <- v.leases | v.leases[k].kind == Upload :: k in UploadLeases(v.leases);
  }
}
