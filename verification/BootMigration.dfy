/** Booting over what earlier builds left behind: credential to the vault, library to SQLite, the legacy
  * file to an archive -- in an order that survives a crash after any step.
  */
module BootMigration {
  import opened Wrappers

  type Key = string
  type Credential = string

  datatype Status = Uploading | Interrupted | Uploaded | Other(id: nat)

  datatype Entry = Entry(revision: nat, status: Status)

  /** Endpoint, bucket and URL style, if they were ever configured, and everything else. */
  datatype Storage = Storage(coordinates: Option<nat>, rest: nat)

  datatype Config = Config(library: map<Key, Entry>, storage: Storage)

  const DEFAULT_COORDINATES: nat := 0
  const NEW_CONFIG := Config(map[], Storage(Some(DEFAULT_COORDINATES), 0))

  datatype LegacyFile = Corrupt | Json(config: Config, credential: Option<Credential>)

  datatype Outcome = Succeeded | Cancelled

  /** The durable upload job of an entry, and the completion record of one that has ended. */
  datatype Job = Live(revision: nat) | Ended(revision: nat, outcome: Outcome, acknowledged: bool)

  /** Everything that survives a crash.  At revision 0 the SQLite store has never been written. */
  datatype Durable = Durable(
    vault: Option<Credential>,
    legacy: Option<LegacyFile>,
    revision: nat,
    config: Config,
    archives: seq<LegacyFile>,
    jobs: map<Key, Job>)

  /* ------------------------------ what a boot must bring about ------------------------------ */

  predicate Authoritative(d: Durable) {
    d.revision > 0
  }

  /** Where this boot reads its configuration from. */
  function Source(d: Durable): Config {
    if Authoritative(d) then d.config
    else if d.legacy.Some? && d.legacy.value.Json? then d.legacy.value.config
    else NEW_CONFIG
  }

  function WithDefaults(s: Storage): Storage {
    if s.coordinates.None? then s.(coordinates := Some(DEFAULT_COORDINATES)) else s
  }

  /** A job that the library has not caught up with yet. */
  predicate Protects(jobs: map<Key, Job>, k: Key) {
    k in jobs && (jobs[k].Ended? ==> !jobs[k].acknowledged)
  }

  /** The status of an entry once the completion of its job has been projected onto it. */
  function Projected(e: Entry, k: Key, jobs: map<Key, Job>): Status {
    if Protects(jobs, k) then
      if jobs[k].revision != e.revision then e.status
      else if jobs[k].Ended? && jobs[k].outcome == Succeeded then Uploaded
      else Interrupted
    else if e.status == Uploading then Interrupted
    else e.status
  }

  /** The two libraries become the same once all completions are projected. */
  ghost predicate SameLibrary(a: map<Key, Entry>, jobs: map<Key, Job>, b: map<Key, Entry>, jobs': map<Key, Job>) {
    && a.Keys == b.Keys
    && forall k <- a :: a[k].revision == b[k].revision && Projected(a[k], k, jobs) == Projected(b[k], k, jobs')
  }

  /** The plaintext credential that a boot still has to move. */
  function LegacyCredential(d: Durable): Option<Credential> {
    if !Authoritative(d) && d.legacy.Some? && d.legacy.value.Json? then d.legacy.value.credential else None
  }

  /** The credential that a boot must see in the vault. */
  function Owed(d: Durable): Option<Credential> {
    if LegacyCredential(d).Some? then LegacyCredential(d) else d.vault
  }

  /** Once SQLite is authoritative, no plaintext credential is left in the legacy file. */
  predicate Scrubbed(d: Durable) {
    Authoritative(d) && d.legacy.Some? ==> d.legacy.value.Json? && d.legacy.value.credential.None?
  }

  /** Entries are only ever marked as interrupted, and only if they were being uploaded. */
  ghost predicate OnlyMarked(a: map<Key, Entry>, b: map<Key, Entry>) {
    && a.Keys == b.Keys
    && forall k <- a :: b[k] == a[k] || (a[k].status == Uploading && b[k] == a[k].(status := Interrupted))
  }

  /** `d'` is as far or further than `d`, and a boot has the same to bring about. */
  ghost predicate Kept(d: Durable, d': Durable) {
    && Scrubbed(d')
    && OnlyMarked(Source(d).library, Source(d').library)
    && SameLibrary(Source(d).library, d.jobs, Source(d').library, d'.jobs)
    && WithDefaults(Source(d).storage) == WithDefaults(Source(d').storage)
    && (Owed(d).Some? ==> Owed(d') == Owed(d))
    && d.revision <= d'.revision
    && (!Authoritative(d') ==> (d'.legacy.None? <==> d.legacy.None?))
  }

  lemma KeptTwice(a: Durable, b: Durable, c: Durable)
    requires Kept(a, b) && Kept(b, c)
    ensures Kept(a, c)
  {
  }

  /* ------------------------------ interrupted uploads ------------------------------ */

  /** What the start does to an entry that was being uploaded when the last process ended. */
  function Reconciled(library: map<Key, Entry>, jobs: map<Key, Job>): (r: map<Key, Entry>)
    ensures r.Keys == library.Keys
  {
    map k | k in library ::
      if library[k].status == Uploading &&
         (if Protects(jobs, k) then jobs[k] == Live(library[k].revision) else true)
      then library[k].(status := Interrupted) else library[k]
  }

  /** Some of the live jobs are cancelled, and nothing else. */
  ghost predicate Cancelling(jobs: map<Key, Job>, jobs': map<Key, Job>) {
    && jobs'.Keys == jobs.Keys
    && forall k <- jobs ::
         jobs'[k] == jobs[k] || (jobs[k].Live? && jobs'[k] == Ended(jobs[k].revision, Cancelled, false))
  }

  lemma ReconciledIsSame(library: map<Key, Entry>, jobs: map<Key, Job>, jobs': map<Key, Job>)
    requires Cancelling(jobs, jobs')
    ensures SameLibrary(library, jobs, library, jobs')
    ensures SameLibrary(library, jobs, Reconciled(library, jobs), jobs')
  {
  }

  /** Who is marked as interrupted: every entry that was being uploaded, unless its job has ended without
    * being acknowledged, or is one of another revision; those are left to their completion. */
  lemma WhoIsMarked(library: map<Key, Entry>, jobs: map<Key, Job>, k: Key)
    requires k in library
    ensures var e, e' := library[k], Reconciled(library, jobs)[k];
      && e'.revision == e.revision
      && (e.status != Uploading ==> e'.status == e.status)
      && (e.status == Uploading && k !in jobs ==> e'.status == Interrupted)
      && (e.status == Uploading && k in jobs ==>
           match jobs[k]
           case Live(revision) => e'.status == if revision == e.revision then Interrupted else Uploading
           case Ended(_, _, acknowledged) => e'.status == if acknowledged then Interrupted else Uploading)
  {
  }

  /** The pass has something to do exactly if there is such an entry. */
  lemma SomeMarked(library: map<Key, Entry>, jobs: map<Key, Job>)
    ensures Reconciled(library, jobs) != library <==>
      exists k <- library :: library[k].status == Uploading && !AwaitsCompletion(library[k], k, jobs)
  {
    if forall k <- library :: Reconciled(library, jobs)[k] == library[k] {
      assert Reconciled(library, jobs) == library;
    }
  }

  /** A second pass over a reconciled library finds nothing to do. */
  lemma ReconciledOnce(library: map<Key, Entry>, jobs: map<Key, Job>, jobs': map<Key, Job>)
    requires Cancelling(jobs, jobs') && forall k <- jobs' :: !jobs'[k].Live?
    ensures Reconciled(Reconciled(library, jobs), jobs') == Reconciled(library, jobs)
  {
  }

  /** SQLite has taken over, but the legacy file is not archived yet. */
  predicate InWindow(d: Durable) {
    Authoritative(d) && d.legacy.Some?
  }

  /** What SQLite holds once the migration has taken place. */
  function Migrated(d: Durable): Config {
    Config(Reconciled(Source(d).library, d.jobs), WithDefaults(Source(d).storage))
  }

  /** The boot from `d` to `d'` let SQLite take over, and ended before the legacy file was archived. */
  predicate StoppedInWindow(d: Durable, d': Durable) {
    !Authoritative(d) && InWindow(d')
  }

  /** One boot archives what it has read, and lets SQLite take over only from that. */
  ghost predicate Advances(d: Durable, d': Durable) {
    && d.revision <= d'.revision
    && (d'.legacy.None? || d'.legacy == d.legacy || (d.legacy.Some? && d'.legacy == Some(Json(Source(d), None))))
    && (!Authoritative(d') ==> (d'.legacy.None? <==> d.legacy.None?) && Source(d') == Source(d))
    && (StoppedInWindow(d, d') ==> d'.config == Migrated(d) && d'.legacy == Some(Json(Source(d), None)))
    && (InWindow(d') && Authoritative(d) ==> d'.config == d.config)
    && d'.archives == d.archives + (if d.legacy.Some? && d'.legacy.None? then [Json(Source(d), None)] else [])
  }

  /* ------------------------------ the machine ------------------------------ */

  datatype Step = OpenStore | ReadLegacy | Cancel(key: Key) | RecoverDeletes | WriteVault | LookInVault | Seed
                | Scrub | Migrate | Archive | Persist

  /** `Late` takes place, and then an error is reported; `Dies` ends the process before the step. */
  datatype Fate = Happens | Fails | Late | Dies

  type Oracle = Step -> Fate

  ghost predicate Smooth(o: Oracle) {
    forall s :: o(s) == Happens
  }

  /** Nothing goes wrong before the archive. */
  ghost predicate UpToArchive(o: Oracle) {
    forall s :: s != Archive && s != Persist ==> o(s) == Happens
  }

  /** The look into the vault and the seeding take place. */
  predicate Seeds(o: Oracle) {
    o(LookInVault) == Happens && (o(Seed) == Happens || o(Seed) == Late)
  }

  /** The vault after a boot without a legacy credential that has come past the bootstrap. */
  function Bootstrapped(before: Option<Credential>, o: Oracle, bootstrap: Option<Credential>): Option<Credential> {
    if before.None? && Seeds(o) then bootstrap else before
  }

  datatype BootConfig = BootConfig(
    revision: nat,
    legacyPresent: bool,
    cleanPayload: Config,
    legacyCredential: Option<Credential>,
    library: map<Key, Entry>,
    storage: Storage)

  datatype Up = Up(library: map<Key, Entry>, storage: Storage)

  /** The profile of `c`, with the default coordinates where it has none. */
  ghost predicate Profile(c: Config, storage: Storage) {
    && storage.rest == c.storage.rest
    && storage.coordinates ==
       (if c.storage.coordinates.Some? then c.storage.coordinates else Some(DEFAULT_COORDINATES))
  }

  /** What comes up of the configuration `c`: its profile, and its entries, of which those that were being
    * uploaded are marked as interrupted unless their completion is still to be told. */
  ghost predicate ComesOf(c: Config, jobs: map<Key, Job>, up: Up) {
    && Profile(c, up.storage)
    && up.library.Keys == c.library.Keys
    && (forall k <- c.library :: up.library[k].revision == c.library[k].revision)
    && (forall k <- c.library | c.library[k].status != Uploading :: up.library[k].status == c.library[k].status)
    && forall k <- c.library | c.library[k].status == Uploading ::
         up.library[k].status == if AwaitsCompletion(c.library[k], k, jobs) then Uploading else Interrupted
  }

  /** The job of the entry has ended without being acknowledged, or is one of another revision. */
  predicate AwaitsCompletion(e: Entry, k: Key, jobs: map<Key, Job>) {
    k in jobs && match jobs[k] case Live(revision) => revision != e.revision case Ended(_, _, told) => !told
  }

  /** What comes up of `c` in the end, after any number of boots. */
  ghost predicate ComesAtLast(c: Config, up: Up) {
    && Profile(c, up.storage)
    && up.library.Keys == c.library.Keys
    && (forall k <- c.library :: up.library[k].revision == c.library[k].revision)
    && (forall k <- c.library | c.library[k].status != Uploading :: up.library[k].status == c.library[k].status)
    && forall k <- c.library | c.library[k].status == Uploading :: up.library[k].status in {Uploading, Interrupted}
  }

  /** Every effect that this boot comes to takes place, except that the vault need not be seeded. */
  ghost predicate Unhindered(d: Durable, o: Oracle, bootstrap: Option<Credential>) {
    && o(OpenStore) == Happens && o(ReadLegacy) == Happens && o(RecoverDeletes) == Happens
    && (d.revision == 0 ==> d.legacy != Some(Corrupt) && o(Migrate) == Happens)
    && (forall k <- d.jobs | d.jobs[k].Live? :: o(Cancel(k)) == Happens)
    && VaultGoes(d, o, bootstrap)
    && (d.legacy.Some? ==> o(Scrub) == Happens && o(Archive) == Happens)
    && (d.revision > 0 && (exists k <- d.config.library ::
         d.config.library[k].status == Uploading && !AwaitsCompletion(d.config.library[k], k, d.jobs)) ==>
         o(Persist) == Happens)
  }

  /** A legacy credential is moved into the vault, and the process lives through the bootstrap. */
  predicate VaultGoes(d: Durable, o: Oracle, bootstrap: Option<Credential>) {
    && (LegacyCredential(d).Some? ==> o(WriteVault) == Happens)
    && o(LookInVault) != Dies
    && (o(LookInVault) == Happens && Owed(d).None? && bootstrap.Some? ==> o(Seed) != Dies)
  }

  class Machine {
    var vault: Option<Credential>
    var legacy: Option<LegacyFile>
    var revision: nat
    var config: Config
    var archives: seq<LegacyFile>
    var jobs: map<Key, Job>

    /** The credential of the first-run bootstrap, if there is one. */
    const bootstrap: Option<Credential>

    function View(): Durable
      reads this
    {
      Durable(vault, legacy, revision, config, archives, jobs)
    }

    /** The one read of the persisted configuration. */
    method Load(o: Oracle) returns (boot: Option<BootConfig>)
      ensures boot.Some? ==>
        && boot.value.revision == revision
        && boot.value.legacyPresent == legacy.Some?
        && boot.value.cleanPayload == Source(View())
        && boot.value.library == Source(View()).library
        && boot.value.storage == WithDefaults(Source(View()).storage)
        && boot.value.legacyCredential == LegacyCredential(View())
        && (!Authoritative(View()) && legacy.Some? ==> legacy.value.Json?)
      ensures boot.Some? ==>
        && boot.value.library == boot.value.cleanPayload.library && Profile(boot.value.cleanPayload, boot.value.storage)
      ensures boot.Some? && revision > 0 ==> boot.value.cleanPayload == config && boot.value.legacyCredential.None?
      ensures boot.Some? && revision == 0 && legacy.Some? ==>
        legacy == Some(Json(boot.value.cleanPayload, boot.value.legacyCredential))
      ensures boot.Some? && revision == 0 && legacy.None? ==>
        && boot.value.cleanPayload == Config(map[], Storage(Some(DEFAULT_COORDINATES), 0))
        && boot.value.legacyCredential.None?
      ensures boot.Some? <==>
        o(OpenStore) == Happens && o(ReadLegacy) == Happens && (revision == 0 ==> legacy != Some(Corrupt))
    {
      if o(OpenStore) != Happens || o(ReadLegacy) != Happens {
        return None;
      }
      var clean, credential := NEW_CONFIG, None;
      if revision > 0 {
        clean := config;
      } else if legacy.Some? {
        if legacy.value.Corrupt? {
          return None;
        }
        clean, credential := legacy.value.config, legacy.value.credential;
      }
      var storage := clean.storage;
      if storage.coordinates.None? {
        storage := storage.(coordinates := Some(DEFAULT_COORDINATES));
      }
      return Some(BootConfig(revision, legacy.Some?, clean, credential, clean.library, storage));
    }

    /** Ends every upload job of the last process, and reports what becomes of the library. */
    method ReconcileInterruptedUploads(library: map<Key, Entry>, o: Oracle)
      returns (ok: bool, reconciled: map<Key, Entry>)
      modifies this`jobs
      ensures Cancelling(old(jobs), jobs)
      ensures ok ==> reconciled == Reconciled(library, old(jobs)) && forall k <- jobs :: !jobs[k].Live?
      ensures ok <==> forall k <- old(jobs) | old(jobs)[k].Live? :: o(Cancel(k)) == Happens
      ensures forall k <- old(jobs) | jobs[k] != old(jobs)[k] :: o(Cancel(k)) == Happens || o(Cancel(k)) == Late
    {
      reconciled := Reconciled(library, jobs);
      var todo := set k | k in jobs && jobs[k].Live?;
      while todo != {}
        invariant Cancelling(old(jobs), jobs)
        invariant forall k <- old(jobs) | jobs[k] != old(jobs)[k] :: o(Cancel(k)) == Happens || o(Cancel(k)) == Late
        invariant forall k <- jobs :: jobs[k].Live? <==> k in todo
        invariant forall k <- old(jobs) | old(jobs)[k].Live? :: k in todo || o(Cancel(k)) == Happens
        decreases todo
      {
        var k :| k in todo;
        if o(Cancel(k)) == Happens || o(Cancel(k)) == Late {
          jobs := jobs[k := Ended(jobs[k].revision, Cancelled, false)];
        }
        if o(Cancel(k)) != Happens {
          return false, reconciled;
        }
        todo := todo - {k};
      }
      ok := true;
    }

    /** Moves a legacy credential into the vault. */
    method MigrateCredential(credential: Option<Credential>, o: Oracle) returns (ok: bool)
      modifies this`vault
      ensures vault == if credential.Some? && (o(WriteVault) == Happens || o(WriteVault) == Late) then credential
                       else old(vault)
      ensures ok <==> credential.None? || o(WriteVault) == Happens
    {
      if credential.None? {
        return true;
      }
      if o(WriteVault) == Happens || o(WriteVault) == Late {
        vault := credential;
      }
      ok := o(WriteVault) == Happens;
    }

    /** Seeds an empty vault; whatever goes wrong is not fatal. */
    method BootstrapCredential(o: Oracle) returns (alive: bool)
      modifies this`vault
      ensures old(vault).Some? ==> vault == old(vault)
      ensures vault == old(vault) || vault == bootstrap
      ensures alive <==>
        o(LookInVault) != Dies && (o(LookInVault) == Happens && old(vault).None? && bootstrap.Some? ==> o(Seed) != Dies)
      ensures UpToArchive(o) && old(vault).None? ==> vault == bootstrap
      ensures alive ==> vault == Bootstrapped(old(vault), o, bootstrap)
    {
      if o(LookInVault) == Dies {
        return false;
      }
      if o(LookInVault) != Happens || vault.Some? || bootstrap.None? {
        return true;
      }
      if o(Seed) == Happens || o(Seed) == Late {
        vault := bootstrap;
      }
      alive := o(Seed) != Dies;
    }

    /** The configuration of the legacy file, without a credential, and what is to replace it. */
    ghost predicate Prepared(d0: Durable, boot: BootConfig, library: map<Key, Entry>)
      reads this
    {
      && boot.revision == revision == d0.revision
      && boot.cleanPayload == Source(d0)
      && boot.legacyPresent == legacy.Some?
      && boot.library == Source(d0).library && library == Reconciled(boot.library, d0.jobs)
      && boot.storage == WithDefaults(Source(d0).storage)
      && Cancelling(d0.jobs, jobs) && (forall k <- jobs :: !jobs[k].Live?)
      && (!Authoritative(d0) && legacy.Some? ==> legacy.value.Json?)
      && config == d0.config && archives == d0.archives && legacy == d0.legacy
      && (LegacyCredential(d0).Some? ==> vault == LegacyCredential(d0))
      && (d0.vault.Some? && LegacyCredential(d0).None? ==> vault == d0.vault)
    }

    /** Everything of a boot that comes before the legacy file is touched. */
    method Prepare(boot: BootConfig, o: Oracle) returns (library: Option<map<Key, Entry>>)
      requires Scrubbed(View())
      requires boot.revision == revision && boot.cleanPayload == Source(View()) && boot.legacyPresent == legacy.Some?
      requires boot.library == Source(View()).library && boot.storage == WithDefaults(Source(View()).storage)
      requires boot.legacyCredential == LegacyCredential(View())
      requires !Authoritative(View()) && legacy.Some? ==> legacy.value.Json?
      modifies this`vault, this`jobs
      ensures Kept(old(View()), View())
      ensures library.Some? ==> Prepared(old(View()), boot, library.value)
      ensures UpToArchive(o) ==>
        library.Some? && vault == (if Owed(old(View())).Some? then Owed(old(View())) else bootstrap)
      ensures boot.legacyCredential.None? ==> vault == old(vault) || (old(vault).None? && vault == bootstrap)
      ensures library.Some? && boot.legacyCredential.None? ==> vault == Bootstrapped(old(vault), o, bootstrap)
      ensures library.Some? <==>
        && (forall k <- old(jobs) | old(jobs)[k].Live? :: o(Cancel(k)) == Happens)
        && o(RecoverDeletes) == Happens && VaultGoes(old(View()), o, bootstrap)
    {
      var ok, reconciled := ReconcileInterruptedUploads(boot.library, o);
      ReconciledIsSame(boot.library, old(jobs), jobs);
      if !ok || o(RecoverDeletes) != Happens {
        return None;
      }
      ok := MigrateCredential(boot.legacyCredential, o);
      if !ok {
        return None;
      }
      ok := BootstrapCredential(o);
      if !ok {
        return None;
      }
      return Some(reconciled);
    }

    method ScrubLegacy(payload: Config, o: Oracle) returns (ok: bool)
      requires legacy.Some?
      modifies this`legacy
      ensures legacy == if o(Scrub) == Happens || o(Scrub) == Late then Some(Json(payload, None)) else old(legacy)
      ensures ok <==> o(Scrub) == Happens
    {
      if o(Scrub) == Happens || o(Scrub) == Late {
        legacy := Some(Json(payload, None));
      }
      ok := o(Scrub) == Happens;
    }

    method ArchiveLegacy(o: Oracle) returns (ok: bool)
      requires legacy.Some?
      modifies this`legacy, this`archives
      ensures (legacy == old(legacy) && archives == old(archives)) ||
              (legacy == None && archives == old(archives) + [old(legacy).value])
      ensures legacy == None <==> o(Archive) == Happens || o(Archive) == Late
      ensures ok <==> o(Archive) == Happens
    {
      if o(Archive) == Happens || o(Archive) == Late {
        archives := archives + [legacy.value];
        legacy := None;
      }
      ok := o(Archive) == Happens;
    }

    /** Replaces the snapshot in SQLite, if the revision is still the one that was read. */
    method SaveIfRevision(expected: nat, library: map<Key, Entry>, storage: Storage, fate: Fate) returns (ok: bool)
      modifies this`revision, this`config
      ensures (revision == old(revision) && config == old(config)) ||
              (revision == old(revision) + 1 == expected + 1 && config == Config(library, storage))
      ensures ok ==> revision == expected + 1
      ensures expected == old(revision) ==> (ok <==> fate == Happens)
    {
      if expected != revision || fate == Fails || fate == Dies {
        return false;
      }
      revision, config := revision + 1, Config(library, storage);
      ok := fate == Happens;
    }

    /** How far the move has come: the legacy file is replaced before SQLite takes over, and archived after. */
    ghost predicate Moved(d0: Durable)
      reads this
    {
      && (legacy == d0.legacy || (d0.legacy.Some? && (legacy == None || legacy == Some(Json(Source(d0), None)))))
      && (if revision == d0.revision then config == d0.config else
           d0.revision == 0 && revision == 1 && config == Migrated(d0) &&
           (legacy.Some? ==> legacy == Some(Json(Source(d0), None))))
      && (legacy.None? && d0.legacy.Some? ==> Authoritative(View()))
      && archives == d0.archives + (if d0.legacy.Some? && legacy.None? then [Json(Source(d0), None)] else [])
    }

    /** Nothing on the way loses what has to be brought about. */
    lemma MovedIsKept(d0: Durable)
      requires Scrubbed(d0) && Moved(d0) && Cancelling(d0.jobs, jobs)
      requires LegacyCredential(d0).Some? ==> vault == LegacyCredential(d0)
      requires d0.vault.Some? && LegacyCredential(d0).None? ==> vault == d0.vault
      requires !Authoritative(d0) && d0.legacy.Some? ==> d0.legacy.value.Json?
      ensures Kept(d0, View()) && Advances(d0, View())
    {
      ReconciledIsSame(Source(d0).library, d0.jobs, jobs);
    }

    /** The move itself: scrub, make SQLite authoritative, archive. */
    method MoveStore(ghost d0: Durable, boot: BootConfig, library: map<Key, Entry>, o: Oracle) returns (ok: bool)
      requires Scrubbed(d0) && Kept(d0, View()) && Prepared(d0, boot, library)
      modifies this`legacy, this`revision, this`config, this`archives
      ensures Kept(d0, View())
      ensures Advances(d0, View())
      ensures ok ==> legacy == None && Authoritative(View())
      ensures ok ==> if Authoritative(d0) then revision == d0.revision && config == d0.config
                     else revision == 1 && config == Migrated(d0)
      ensures UpToArchive(o) ==> Authoritative(View()) && (ok <==> o(Archive) == Happens || d0.legacy.None?)
      ensures ok <==>
        && (d0.legacy.Some? ==> o(Scrub) == Happens && o(Archive) == Happens)
        && (d0.revision == 0 ==> o(Migrate) == Happens)
      ensures o(Archive) == Fails || o(Archive) == Dies ==> (legacy.None? <==> d0.legacy.None?)
    {
      ok := MoveParts(d0, boot, library, o);
      MovedIsKept(d0);
    }

    method MoveParts(ghost d0: Durable, boot: BootConfig, library: map<Key, Entry>, o: Oracle) returns (ok: bool)
      requires Prepared(d0, boot, library)
      modifies this`legacy, this`revision, this`config, this`archives
      ensures Moved(d0)
      ensures ok ==> legacy == None && Authoritative(View())
      ensures ok ==> if Authoritative(d0) then revision == d0.revision && config == d0.config
                     else revision == 1 && config == Migrated(d0)
      ensures UpToArchive(o) ==> Authoritative(View()) && (ok <==> o(Archive) == Happens || d0.legacy.None?)
      ensures ok <==>
        && (d0.legacy.Some? ==> o(Scrub) == Happens && o(Archive) == Happens)
        && (d0.revision == 0 ==> o(Migrate) == Happens)
      ensures o(Archive) == Fails || o(Archive) == Dies ==> (legacy.None? <==> d0.legacy.None?)
    {
      ok := true;
      if boot.legacyPresent {
        ok := ScrubLegacy(boot.cleanPayload, o);
        if !ok {
          return;
        }
      }
      if boot.revision == 0 {
        ok := SaveIfRevision(boot.revision, library, boot.storage, o(Migrate));
        if !ok {
          return;
        }
      }
      if boot.legacyPresent {
        ok := ArchiveLegacy(o);
      }
    }

    /** A store that was authoritative before still needs the marks of the interrupted uploads. */
    method PersistReconciled(ghost d0: Durable, boot: BootConfig, library: map<Key, Entry>, o: Oracle)
      returns (ok: bool)
      requires Scrubbed(d0) && Kept(d0, View()) && Advances(d0, View()) && legacy.None? && Authoritative(View())
      requires boot.revision == d0.revision && boot.library == Source(d0).library
      requires library == Reconciled(boot.library, d0.jobs) && boot.storage == WithDefaults(Source(d0).storage)
      requires if Authoritative(d0) then revision == d0.revision && config == d0.config
               else revision == 1 && config == Migrated(d0)
      requires Cancelling(d0.jobs, jobs)
      modifies this`revision, this`config
      ensures Kept(d0, View()) && Advances(d0, View()) && Authoritative(View())
      ensures ok ==> config.library == library && WithDefaults(config.storage) == boot.storage
      ensures ok <==> (boot.revision > 0 && library != boot.library ==> o(Persist) == Happens)
      ensures ok ==> revision == old(revision) + if boot.revision > 0 && library != boot.library then 1 else 0
    {
      ReconciledIsSame(boot.library, d0.jobs, jobs);
      ok := true;
      if boot.revision > 0 && library != boot.library {
        ok := SaveIfRevision(boot.revision, library, boot.storage, o(Persist));
      }
    }

    /** One boot, from whatever state the last one left.
      *
      * At every crash point what has to be brought about is the same as before; a boot that comes up has
      * brought it about.  It comes up exactly if every effect that it comes to takes place. */
    method Boot(o: Oracle) returns (up: Option<Up>)
      requires Scrubbed(View())
      modifies this
      ensures Kept(old(View()), View()) && Advances(old(View()), View())
      ensures up.Some? ==> Finished(old(View()), View(), up.value)
      ensures up.Some? <==> Unhindered(old(View()), o, bootstrap)
      ensures UpToArchive(o) && (o(Archive) == Fails || o(Archive) == Dies) &&
              old(legacy).Some? && old(legacy) != Some(Corrupt) ==>
        InWindow(View())
      ensures old(revision) == 0 && old(legacy) == Some(Corrupt) ==> View() == old(View())
      ensures Smooth(o) && up.Some? ==>
        vault == (if Owed(old(View())).Some? then Owed(old(View())) else bootstrap)
      ensures LegacyCredential(old(View())).None? ==>
        vault == old(vault) || (old(vault).None? && vault == bootstrap)
      ensures up.Some? && LegacyCredential(old(View())).None? ==> vault == Bootstrapped(old(vault), o, bootstrap)
      ensures up.Some? && old(revision) > 0 ==> ComesOf(old(config), old(jobs), up.value)
      ensures up.Some? && old(revision) == 0 && old(legacy).None? ==>
        up.value == Up(map[], Storage(Some(DEFAULT_COORDINATES), 0)) && archives == old(archives)
      ensures up.Some? && old(revision) == 0 && old(legacy).Some? ==>
        && old(legacy).value.Json?
        && ComesOf(old(legacy).value.config, old(jobs), up.value)
        && archives == old(archives) + [Json(old(legacy).value.config, None)]
        && (old(legacy).value.credential.Some? ==> vault == old(legacy).value.credential)
        && (old(legacy).value.credential.None? && old(vault).Some? ==> vault == old(vault))
      ensures up.Some? && old(revision) > 0 && old(vault).Some? ==> vault == old(vault)
      ensures up.Some? && old(revision) == 0 ==> revision == 1
      ensures up.Some? && old(revision) > 0 ==>
        revision == old(revision) + if up.value.library == old(config).library then 0 else 1
      ensures up.Some? ==> config.library == up.value.library && Profile(config, up.value.storage)
      ensures up.Some? ==> jobs.Keys == old(jobs).Keys && forall k <- jobs ::
          jobs[k] == if old(jobs)[k].Live? then Ended(old(jobs)[k].revision, Cancelled, false) else old(jobs)[k]
    {
      ghost var d0 := View();
      up := BootInOrder(o);
      if up.Some? {
        ByFields(d0, View(), up.value);
      }
    }

    /** The steps of a boot, in their order. */
    method BootInOrder(o: Oracle) returns (up: Option<Up>)
      requires Scrubbed(View())
      modifies this
      ensures Kept(old(View()), View()) && Advances(old(View()), View())
      ensures up.Some? ==> Finished(old(View()), View(), up.value) && Cancelling(old(jobs), jobs)
      ensures up.Some? && old(revision) == 0 ==> revision == 1
      ensures up.Some? && old(revision) > 0 ==>
        revision == old(revision) + if up.value.library == old(config).library then 0 else 1
      ensures up.Some? <==> Unhindered(old(View()), o, bootstrap)
      ensures UpToArchive(o) && (o(Archive) == Fails || o(Archive) == Dies) &&
              old(legacy).Some? && old(legacy) != Some(Corrupt) ==>
        InWindow(View())
      ensures old(revision) == 0 && old(legacy) == Some(Corrupt) ==> View() == old(View())
      ensures LegacyCredential(old(View())).None? ==>
        vault == old(vault) || (old(vault).None? && vault == bootstrap)
      ensures up.Some? && LegacyCredential(old(View())).None? ==> vault == Bootstrapped(old(vault), o, bootstrap)
    {
      ghost var d0 := View();
      var boot := Load(o);
      if boot.None? {
        return None;
      }
      var library := Prepare(boot.value, o);
      if library.None? {
        return None;
      }
      up := BringUp(d0, boot.value, library.value, o);
    }

    /** What comes after the vault: the move of the configuration, and the marks of interrupted uploads. */
    method BringUp(ghost d0: Durable, boot: BootConfig, library: map<Key, Entry>, o: Oracle) returns (up: Option<Up>)
      requires Scrubbed(d0) && Kept(d0, View()) && Prepared(d0, boot, library)
      modifies this`legacy, this`revision, this`config, this`archives
      ensures Kept(d0, View()) && Advances(d0, View())
      ensures up.Some? ==> Finished(d0, View(), up.value)
      ensures up.Some? && d0.revision == 0 ==> revision == 1
      ensures up.Some? && d0.revision > 0 ==>
        revision == d0.revision + if up.value.library == d0.config.library then 0 else 1
      ensures up.Some? <==>
        && (d0.legacy.Some? ==> o(Scrub) == Happens && o(Archive) == Happens)
        && (d0.revision == 0 ==> o(Migrate) == Happens)
        && (d0.revision > 0 && (exists k <- d0.config.library ::
             d0.config.library[k].status == Uploading && !AwaitsCompletion(d0.config.library[k], k, d0.jobs)) ==>
             o(Persist) == Happens)
      ensures UpToArchive(o) && (o(Archive) == Fails || o(Archive) == Dies) && d0.legacy.Some? ==> InWindow(View())
    {
      SomeMarked(Source(d0).library, d0.jobs);
      var ok := MoveStore(d0, boot, library, o);
      if !ok {
        return None;
      }
      ok := PersistReconciled(d0, boot, library, o);
      up := if ok then Some(Up(library, boot.storage)) else None;
    }
  }

  lemma ByFields(d0: Durable, d: Durable, up: Up)
    requires Finished(d0, d, up)
    ensures ComesOf(Source(d0), d0.jobs, up)
    ensures Profile(d.config, up.storage)
  {
    forall k | k in Source(d0).library {
      WhoIsMarked(Source(d0).library, d0.jobs, k);
    }
  }

  /** The end of a migration: one authority, no legacy file, no live upload, the owed credential in the
    * vault, and the very library and storage profile that were owed. */
  ghost predicate Finished(d0: Durable, d: Durable, up: Up) {
    && Authoritative(d) && d.legacy.None?
    && (forall k <- d.jobs :: !d.jobs[k].Live?)
    && (Owed(d0).Some? ==> d.vault == Owed(d0))
    && up.library == d.config.library == Reconciled(Source(d0).library, d0.jobs)
    && up.storage == WithDefaults(d.config.storage) == WithDefaults(Source(d0).storage)
  }

  /** The migration finds nothing to add: the coordinates are set, and no upload was interrupted. */
  ghost predicate NothingToAdd(d: Durable) {
    && Source(d).storage.coordinates.Some?
    && forall k <- Source(d).library :: Source(d).library[k].status == Uploading ==>
         Protects(d.jobs, k) && d.jobs[k] != Live(Source(d).library[k].revision)
  }

  lemma MigratedAddsNothing(d: Durable)
    ensures Migrated(d) == Source(d) <==> NothingToAdd(d)
  {
    var library := Source(d).library;
    assert forall k <- library :: Reconciled(library, d.jobs)[k] == library[k] ==>
      library[k].status == Uploading ==> Protects(d.jobs, k) && d.jobs[k] != Live(library[k].revision);
    assert NothingToAdd(d) ==> Reconciled(library, d.jobs) == library;
  }

  /** Where the archive stands after the boots of `trace`, of which boot `late` stopped in the window. */
  ghost predicate ArchiveLine(trace: seq<Durable>, late: Option<nat>) {
    trace != [] &&
    var d0, d := trace[0], trace[|trace| - 1];
    && (late.None? ==> forall i | 0 <= i < |trace| :: !InWindow(trace[i]))
    && (late.Some? ==>
         && late.value + 1 < |trace| && StoppedInWindow(trace[late.value], trace[late.value + 1])
         && Source(trace[late.value]) == Source(d0) && Authoritative(d))
    && (d.legacy.Some? ==> d.archives == d0.archives)
    && (d.legacy.Some? && late.None? ==> !Authoritative(d) && Source(d) == Source(d0))
    && (d.legacy.Some? && late.Some? ==> d.config == Migrated(trace[late.value]))
    && (d.legacy.None? ==>
         d.archives == d0.archives + [Json(if late.None? then Source(d0) else Migrated(trace[late.value]), None)])
  }

  lemma ArchiveLineGrows(trace: seq<Durable>, late: Option<nat>, d': Durable)
    requires ArchiveLine(trace, late)
    requires Advances(trace[|trace| - 1], d')
    ensures ArchiveLine(trace + [d'], if StoppedInWindow(trace[|trace| - 1], d') then Some(|trace| - 1) else late)
  {
  }

  /** What was archived is the very configuration of the legacy file exactly if no boot stopped in the
    * window, or the one that did had nothing to add. */
  ghost predicate ArchiveTold(trace: seq<Durable>, late: Option<nat>) {
    trace != [] &&
    var d0, d := trace[0], trace[|trace| - 1];
    && (late.None? <==> forall i | 0 <= i < |trace| :: !InWindow(trace[i]))
    && (late.Some? ==> late.value + 1 < |trace| && StoppedInWindow(trace[late.value], trace[late.value + 1]))
    && |d.archives| == |d0.archives| + 1 && d.archives[|d0.archives|].Json?
    && (d.archives[|d0.archives|].config == Source(d0) <==> late.None? || NothingToAdd(trace[late.value]))
  }

  lemma ArchiveIsTold(trace: seq<Durable>, late: Option<nat>)
    requires ArchiveLine(trace, late) && trace[|trace| - 1].legacy.None?
    ensures ArchiveTold(trace, late)
  {
    if late.Some? {
      MigratedAddsNothing(trace[late.value]);
      assert InWindow(trace[late.value + 1]);
    }
  }

  /** No credential is owed: every boot leaves the vault empty, or with the credential of the bootstrap. */
  ghost predicate OnlyBootstrap(trace: seq<Durable>, bootstrap: Option<Credential>) {
    forall d <- trace :: LegacyCredential(d).None? && (d.vault.None? || d.vault == bootstrap)
  }

  /** What the boots so far have left, in terms of what they started from. */
  ghost predicate Line(trace: seq<Durable>, late: Option<nat>, bootstrap: Option<Credential>) {
    trace != [] &&
    var d0 := trace[0];
    && (!Authoritative(d0) && d0.legacy.Some? ==> ArchiveLine(trace, late))
    && (Owed(d0).None? ==> OnlyBootstrap(trace, bootstrap))
  }

  lemma LineGrows(trace: seq<Durable>, late: Option<nat>, d': Durable, bootstrap: Option<Credential>)
    requires Line(trace, late, bootstrap) && Advances(trace[|trace| - 1], d')
    requires var d := trace[|trace| - 1];
      LegacyCredential(d).None? ==> d'.vault == d.vault || (d.vault.None? && d'.vault == bootstrap)
    ensures var late' := if StoppedInWindow(trace[|trace| - 1], d') then Some(|trace| - 1) else late;
      Line(trace + [d'], late', bootstrap)
  {
    var d0 := trace[0];
    if !Authoritative(d0) && d0.legacy.Some? {
      ArchiveLineGrows(trace, late, d');
    }
  }

  /** Boots until the application is up.
    *
    * If no credential is owed, the boot that comes up, the last one, seeds an empty vault from the bootstrap
    * exactly if its look into the vault and the seeding take place.
    *
    * For a legacy file that SQLite has not taken over, `trace` are the states between the boots, and
    * `late` is the boot that stopped in the window, if one did. */
  method Launch(m: Machine, oracles: seq<Oracle>)
    returns (up: Option<Up>, ghost trace: seq<Durable>, ghost late: Option<nat>)
    requires Scrubbed(m.View())
    modifies m
    ensures Kept(old(m.View()), m.View())
    ensures up.Some? ==>
      && Authoritative(m.View()) && m.legacy.None? && (forall k <- m.jobs :: !m.jobs[k].Live?)
      && (Owed(old(m.View())).Some? ==> m.vault == Owed(old(m.View())))
      && SameLibrary(Source(old(m.View())).library, old(m.jobs), up.value.library, m.jobs)
      && up.value.storage == WithDefaults(Source(old(m.View())).storage)
    ensures trace != [] && trace[0] == old(m.View()) && trace[|trace| - 1] == m.View()
    ensures up.Some? && old(m.revision) > 0 ==> ComesAtLast(old(m.config), up.value)
    ensures up.Some? && old(m.revision) == 0 && old(m.legacy).None? ==>
      up.value == Up(map[], Storage(Some(DEFAULT_COORDINATES), 0))
    ensures up.Some? && old(m.revision) == 0 && old(m.legacy).Some? ==>
      && old(m.legacy).value.Json?
      && ComesAtLast(old(m.legacy).value.config, up.value)
      && (old(m.legacy).value.credential.Some? ==> m.vault == old(m.legacy).value.credential)
    ensures |trace| <= |oracles| + 1
    ensures Owed(old(m.View())).None? ==> OnlyBootstrap(trace, m.bootstrap)
    ensures Owed(old(m.View())).None? && up.Some? ==>
      |trace| >= 2 && m.vault == Bootstrapped(trace[|trace| - 2].vault, oracles[|trace| - 2], m.bootstrap)
    ensures !Authoritative(old(m.View())) && old(m.legacy).Some? && up.Some? ==> ArchiveTold(trace, late)
    ensures (exists o <- oracles :: Smooth(o)) && old(m.legacy) != Some(Corrupt) ==> up.Some?
  {
    ghost var d0 := m.View();
    up, trace, late := BootAgain(m, oracles);
    if up.Some? {
      AtLast(d0, trace[|trace| - 2], m.View(), up.value);
      if !Authoritative(d0) && d0.legacy.Some? {
        ArchiveIsTold(trace, late);
      }
    }
  }

  method NextBoot(m: Machine, o: Oracle, ghost trace: seq<Durable>, ghost late: Option<nat>)
    returns (up: Option<Up>, ghost trace': seq<Durable>, ghost late': Option<nat>)
    requires Line(trace, late, m.bootstrap) && trace[|trace| - 1] == m.View() && Scrubbed(m.View())
    modifies m
    ensures Kept(old(m.View()), m.View())
    ensures trace' == trace + [m.View()] && Line(trace', late', m.bootstrap)
    ensures up.Some? ==> Finished(old(m.View()), m.View(), up.value)
    ensures up.Some? && LegacyCredential(old(m.View())).None? ==> m.vault == Bootstrapped(old(m.vault), o, m.bootstrap)
    ensures old(m.revision) == 0 && old(m.legacy) == Some(Corrupt) ==> up.None? && m.View() == old(m.View())
    ensures old(m.legacy) != Some(Corrupt) ==> m.legacy != Some(Corrupt) && (Smooth(o) ==> up.Some?)
  {
    up := m.Boot(o);
    LineGrows(trace, late, m.View(), m.bootstrap);
    late' := if StoppedInWindow(old(m.View()), m.View()) then Some(|trace| - 1) else late;
    trace' := trace + [m.View()];
  }

  /** The boots themselves. */
  method BootAgain(m: Machine, oracles: seq<Oracle>)
    returns (up: Option<Up>, ghost trace: seq<Durable>, ghost late: Option<nat>)
    requires Scrubbed(m.View())
    modifies m
    ensures Kept(old(m.View()), m.View())
    ensures 1 <= |trace| <= |oracles| + 1 && trace[0] == old(m.View()) && trace[|trace| - 1] == m.View()
    ensures Line(trace, late, m.bootstrap)
    ensures up.Some? ==> |trace| >= 2
    ensures up.Some? ==>
      var d := trace[|trace| - 2];
      && Kept(old(m.View()), d) && Finished(d, m.View(), up.value)
      && (LegacyCredential(d).None? ==> m.vault == Bootstrapped(d.vault, oracles[|trace| - 2], m.bootstrap))
    ensures up.Some? && old(m.revision) == 0 ==> old(m.legacy) != Some(Corrupt)
    ensures (exists o <- oracles :: Smooth(o)) && old(m.legacy) != Some(Corrupt) ==> up.Some?
  {
    ghost var d0 := m.View();
    trace, late, up := [d0], None, None;
    for n := 0 to |oracles|
      invariant |trace| == n + 1 && trace[0] == d0 && trace[|trace| - 1] == m.View()
      invariant Line(trace, late, m.bootstrap)
      invariant Kept(d0, m.View()) && up.None?
      invariant d0.revision == 0 && d0.legacy == Some(Corrupt) ==> m.View() == d0
      invariant d0.legacy != Some(Corrupt) ==> m.legacy != Some(Corrupt) && forall o <- oracles[..n] :: !Smooth(o)
    {
      ghost var d := m.View();
      up, trace, late := NextBoot(m, oracles[n], trace, late);
      KeptTwice(d0, d, m.View());
      if up.Some? {
        return;
      }
      assert oracles[..n + 1] == oracles[..n] + [oracles[n]];
    }
    assert oracles[..|oracles|] == oracles;
  }

  lemma AtLast(d0: Durable, d: Durable, d': Durable, up: Up)
    requires Kept(d0, d) && Finished(d, d', up)
    ensures ComesAtLast(Source(d0), up)
  {
    ByFields(d, d', up);
  }

  /** Such a launch: a legacy file without coordinates, and a first boot that cannot archive it. */
  method ArchiveDiffers(m: Machine)
    requires m.View() == Durable(None, Some(Json(Config(map[], Storage(None, 0)), None)), 0, NEW_CONFIG, [], map[])
    modifies m
    ensures m.legacy.None? && m.archives == [Json(Config(map[], Storage(Some(DEFAULT_COORDINATES), 0)), None)]
  {
    var first := m.Boot(s => if s == Archive then Fails else Happens);
    assert InWindow(m.View()) && m.config.library == map[];
    var o := (s: Step) => Happens;
    assert Smooth(o);
    var second := m.Boot(o);
  }

  /* ------------------------------ what the invariant amounts to ------------------------------ */

  /** A legacy credential is at all times in the vault or still in the legacy file. */
  lemma CredentialIsSomewhere(d0: Durable, d: Durable, c: Credential)
    requires Kept(d0, d) && LegacyCredential(d0) == Some(c)
    ensures d.vault == Some(c) || (d.legacy.Some? && d.legacy.value.Json? && d.legacy.value.credential == Some(c))
  {
  }

  /** A legacy library is at all times in the legacy file or in SQLite; and SQLite takes over only from a
    * scrubbed file. */
  lemma LibraryIsSomewhere(d0: Durable, d: Durable, k: Key)
    requires Kept(d0, d) && d0.legacy.Some? && k in Source(d0).library
    ensures (Authoritative(d) && k in d.config.library) ||
            (d.legacy.Some? && d.legacy.value.Json? && k in d.legacy.value.config.library)
    ensures Authoritative(d) && d.legacy.Some? ==> d.legacy.value.credential == None
  {
  }
}
