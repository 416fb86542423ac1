/** The batch a deletion is called with: repeated entries collapse, contradicting ones refuse it. */
module DeleteBatch {
  import opened Wrappers

  datatype DeleteEntry = DeleteEntry(key: string, deviceId: string, sessionId: string)

  datatype Batch = Batch(entries: seq<DeleteEntry>) | Clash(key: string)

  /** Every key names one entry. */
  predicate Agree(entries: seq<DeleteEntry>) {
    forall d, e | d in entries && e in entries && d.key == e.key :: d == e
  }

  /** The keys of a batch, each at its first occurrence. */
  function FirstKeys(entries: seq<DeleteEntry>): (keys: seq<string>)
    ensures Distinct(keys)
    ensures forall k :: k in keys <==> exists e <- entries :: e.key == k
  {
    if entries == [] then
      []
    else
      var e := entries[|entries| - 1];
      var keys := FirstKeys(entries[..|entries| - 1]);
      assert entries == entries[..|entries| - 1] + [e];
      if e.key in keys then keys else keys + [e.key]
  }

  /** The keys stand in the order of their first entries. */
  lemma {:induction false} FirstKeysInOrder(entries: seq<DeleteEntry>)
    ensures forall i, j | 0 <= i < j < |FirstKeys(entries)| ::
      Precedes(entries, FirstKeys(entries)[i], FirstKeys(entries)[j])
  {
    if entries == [] {
    } else {
      var n := |entries| - 1;
      var keys := FirstKeys(entries[..n]);
      FirstKeysInOrder(entries[..n]);
      forall i, j | 0 <= i < j < |FirstKeys(entries)|
        ensures Precedes(entries, FirstKeys(entries)[i], FirstKeys(entries)[j])
      {
        assert keys[i] in keys;
        if j < |keys| {
          assert Precedes(entries[..n], keys[i], keys[j]);
          PrecedesLonger(entries, n, keys[i], keys[j]);
        } else {
          var e :| e in entries[..n] && e.key == keys[i];
          var p :| 0 <= p < n && entries[..n][p] == e;
          assert entries[..p + 1] == entries[..n][..p + 1];
        }
      }
    }
  }

  /** An entry for `k` stands before the first one for `l`. */
  ghost predicate Precedes(entries: seq<DeleteEntry>, k: string, l: string) {
    exists p | 0 <= p < |entries| :: entries[p].key == k && Lacks(entries[..p + 1], l)
  }

  ghost predicate Lacks(entries: seq<DeleteEntry>, l: string) {
    forall e <- entries :: e.key != l
  }

  lemma PrecedesLonger(entries: seq<DeleteEntry>, n: nat, k: string, l: string)
    requires n <= |entries| && Precedes(entries[..n], k, l)
    ensures Precedes(entries, k, l)
  {
    var p :| 0 <= p < n && entries[..n][p].key == k && Lacks(entries[..n][..p + 1], l);
    assert entries[..n][..p + 1] == entries[..p + 1];
  }

  /** `unique` holds the first entry of every key of `entries`, in order. */
  ghost predicate Collapsed(entries: seq<DeleteEntry>, unique: seq<DeleteEntry>) {
    && |unique| == |FirstKeys(entries)|
    && (forall i | 0 <= i < |unique| :: unique[i].key == FirstKeys(entries)[i])
    && (forall e <- unique :: e in entries)
  }

  lemma CollapseStep(entries: seq<DeleteEntry>, unique: seq<DeleteEntry>, e: DeleteEntry)
    requires Collapsed(entries, unique) && Agree(entries)
    ensures (forall u <- unique :: u.key != e.key) ==> Collapsed(entries + [e], unique + [e]) && Agree(entries + [e])
    ensures e in unique ==> Collapsed(entries + [e], unique) && Agree(entries + [e])
  {
  }

  method FindKey(entries: seq<DeleteEntry>, key: string) returns (i: nat)
    ensures i <= |entries| && (i < |entries| ==> entries[i].key == key)
    ensures forall j | 0 <= j < i :: entries[j].key != key
  {
    i := 0;
    while i < |entries| && entries[i].key != key
      invariant i <= |entries|
      invariant forall j | 0 <= j < i :: entries[j].key != key
    {
      i := i + 1;
    }
  }

  /** A key that names two paths refuses the batch; otherwise each key keeps its first entry. */
  method UniqueEntries(entries: seq<DeleteEntry>) returns (r: Batch)
    ensures r.Batch? <==> forall d, e | d in entries && e in entries && d.key == e.key :: d == e
    ensures r.Clash? ==> exists d, e | d in entries && e in entries && d != e :: d.key == e.key == r.key
    ensures r.Batch? ==> Collapsed(entries, r.entries)
  {
    var unique: seq<DeleteEntry> := [];
    for n := 0 to |entries|
      invariant Collapsed(entries[..n], unique) && Agree(entries[..n])
    {
      var e := entries[n];
      CollapseStep(entries[..n], unique, e);
      assert entries[..n + 1] == entries[..n] + [e];
      var i := FindKey(unique, e.key);
      if i == |unique| {
        unique := unique + [e];
      } else if unique[i] != e {
        assert unique[i] in entries[..n];
        return Clash(e.key);
      }
    }
    assert entries[..|entries|] == entries;
    return Batch(unique);
  }
}
