/** The contract of a batch reply: every distinct requested item gets exactly one verdict. */
module Batch {
  import opened Wrappers

  type Item = string

  /** The distinct items, each at its first occurrence. */
  function Unique(items: seq<Item>): (u: seq<Item>)
    ensures Distinct(u)
    ensures forall x :: x in u <==> x in items
  {
    if items == [] then
      []
    else
      var u := Unique(items[..|items| - 1]);
      var last := items[|items| - 1];
      assert items == items[..|items| - 1] + [last];
      if last in u then u else u + [last]
  }

  /** The items stand in the order of their first occurrences. */
  lemma {:induction false} UniqueInOrder(items: seq<Item>)
    ensures forall i, j | 0 <= i < j < |Unique(items)| :: Before(items, Unique(items)[i], Unique(items)[j])
  {
    if items == [] {
    } else {
      var n := |items| - 1;
      var u := Unique(items[..n]);
      UniqueInOrder(items[..n]);
      forall i, j | 0 <= i < j < |Unique(items)| ensures Before(items, Unique(items)[i], Unique(items)[j]) {
        assert u[i] in u;
        if j < |u| {
          assert Before(items[..n], u[i], u[j]);
          BeforeLonger(items, n, u[i], u[j]);
        } else {
          var p :| 0 <= p < n && items[..n][p] == u[i];
          assert items[..p + 1] == items[..n][..p + 1];
        }
      }
    }
  }

  lemma BeforeLonger(items: seq<Item>, n: nat, x: Item, y: Item)
    requires n <= |items| && Before(items[..n], x, y)
    ensures Before(items, x, y)
  {
    var p :| 0 <= p < n && items[..n][p] == x && y !in items[..n][..p + 1];
    assert items[..n][..p + 1] == items[..p + 1];
  }

  /** `x` occurs before the first occurrence of `y`. */
  ghost predicate Before(items: seq<Item>, x: Item, y: Item) {
    exists p | 0 <= p < |items| :: items[p] == x && y !in items[..p + 1]
  }

  /** `results` answers every requested item exactly once, and nothing else. */
  ghost predicate Covers(requested: seq<Item>, results: seq<Item>) {
    Distinct(results) && forall x :: x in results <==> x in requested
  }

  lemma {:induction false} CountOfDistinct(s: seq<Item>)
    ensures Distinct(s) <==> forall x :: multiset(s)[x] == if x in s then 1 else 0
  {
    if s == [] {
    } else {
      var n := |s| - 1;
      assert s == s[..n] + [s[n]];
      CountOfDistinct(s[..n]);
      if Distinct(s) {
        assert Distinct(s[..n]) && s[n] !in s[..n];
      } else if Distinct(s[..n]) {
        assert s[n] in s[..n];
        assert multiset(s)[s[n]] == 2;
      } else {
        var x :| multiset(s[..n])[x] != if x in s[..n] then 1 else 0;
        assert multiset(s)[x] != 1 && x in s;
      }
    }
  }

  /** Covering a request is being a permutation of its distinct items. */
  lemma CoversIsPermutation(requested: seq<Item>, results: seq<Item>)
    ensures Covers(requested, results) <==> multiset(results) == multiset(Unique(requested))
  {
    CountOfDistinct(results);
    CountOfDistinct(Unique(requested));
    if multiset(results) == multiset(Unique(requested)) {
      forall x ensures x in results <==> x in Unique(requested) {
        assert x in results <==> x in multiset(results);
        assert x in Unique(requested) <==> x in multiset(Unique(requested));
      }
    }
  }

  datatype Coverage =
    | Accepted
    | Unexpected(item: Item)
    | Duplicate(item: Item)
    | Omitted(items: seq<Item>)

  /** Nothing is wrong with these results so far. */
  ghost predicate InOrder(requested: seq<Item>, results: seq<Item>) {
    Distinct(results) && forall x <- results :: x in requested
  }

  /** Checks a reply against its request, if the request is known; what is named is the first thing that is
    * wrong with it. */
  method ValidateCoverage(requested: Option<seq<Item>>, results: seq<Item>) returns (c: Coverage)
    ensures c.Accepted? <==> requested.None? || Covers(requested.value, results)
    ensures c.Unexpected? ==>
      && requested.Some? && c.item !in requested.value
      && exists n | 0 <= n < |results| :: results[n] == c.item && InOrder(requested.value, results[..n])
    ensures c.Duplicate? ==>
      && requested.Some? && c.item in requested.value
      && exists n | 0 <= n < |results| ::
           results[n] == c.item && c.item in results[..n] && InOrder(requested.value, results[..n])
    ensures c.Omitted? ==>
      && requested.Some? && InOrder(requested.value, results)
      && c.items != [] && c.items == Filter(Unique(requested.value), set x | x in results)
  {
    if requested.None? {
      return Accepted;
    }
    var expected := Unique(requested.value);
    var seen: set<Item> := {};
    for n := 0 to |results|
      invariant forall x :: x in seen <==> x in results[..n]
      invariant Distinct(results[..n])
      invariant forall x <- results[..n] :: x in requested.value
    {
      var item := results[n];
      assert results[..n + 1] == results[..n] + [item];
      if item !in expected {
        assert InOrder(requested.value, results[..n]);
        return Unexpected(item);
      }
      if item in seen {
        assert InOrder(requested.value, results[..n]);
        return Duplicate(item);
      }
      seen := seen + {item};
    }
    assert results[..|results|] == results;
    assert seen == set x | x in results;
    var missing := Filter(expected, seen);
    if missing != [] {
      assert missing[0] in missing;
      return Omitted(missing);
    }
    return Accepted;
  }

  function Filter(items: seq<Item>, seen: set<Item>): (rest: seq<Item>)
    ensures forall x :: x in rest <==> x in items && x !in seen
  {
    if items == [] then [] else (if items[0] in seen then [] else [items[0]]) + Filter(items[1..], seen)
  }

  lemma {:induction false} FilterIsDistinct(items: seq<Item>, seen: set<Item>)
    requires Distinct(items)
    ensures Distinct(Filter(items, seen))
  {
    if items != [] {
      assert Distinct(items[1..]) && items[0] !in items[1..];
      FilterIsDistinct(items[1..], seen);
      assert items[0] !in Filter(items[1..], seen);
    }
  }

  lemma FilterNext(items: seq<Item>, n: nat, seen: set<Item>)
    requires n < |items|
    ensures Filter(items[..n + 1], seen) == Filter(items[..n], seen) + if items[n] in seen then [] else [items[n]]
  {
    assert items[..n + 1] == items[..n] + [items[n]];
    FilterInTwo(items[..n], [items[n]], seen);
  }

  lemma {:induction false} FilterInTwo(a: seq<Item>, b: seq<Item>, seen: set<Item>)
    ensures Filter(a + b, seen) == Filter(a, seen) + Filter(b, seen)
  {
    if a == [] {
      assert a + b == b;
    } else {
      assert (a + b)[1..] == a[1..] + b;
      FilterInTwo(a[1..], b, seen);
    }
  }

  datatype WireResult<+J> = Success(item: Item, job: J) | Failure(item: Item, error: string)

  datatype BatchItem<+T> = Ok(item: T) | Failed(item: T, error: string)

  datatype DispatchItem<+T, +J> = Queued(item: T, jobId: J) | Rejected(item: T, error: string)

  datatype Reply<+R> = Branded(items: seq<R>) | ContractError(coverage: Coverage)

  function Items<J>(results: seq<WireResult<J>>): seq<Item> {
    seq(|results|, i requires 0 <= i < |results| => results[i].item)
  }

  /** Brands a mutation result item by item. */
  method ToBatchItems<T, J>(results: seq<WireResult<J>>, brand: Item -> T, requested: Option<seq<Item>>)
    returns (reply: Reply<BatchItem<T>>)
    ensures reply.Branded? <==> requested.None? || Covers(requested.value, Items(results))
    ensures reply.Branded? ==>
      && |reply.items| == |results|
      && forall i | 0 <= i < |results| ::
           match results[i]
           case Success(item, _) => reply.items[i] == Ok(brand(item))
           case Failure(item, error) => reply.items[i] == Failed(brand(item), error)
  {
    var coverage := ValidateCoverage(requested, Items(results));
    if !coverage.Accepted? {
      return ContractError(coverage);
    }
    return Branded(seq(|results|, i requires 0 <= i < |results| =>
                     if results[i].Success? then Ok(brand(results[i].item))
                     else Failed(brand(results[i].item), results[i].error)));
  }

  /** Brands a job result: the job of an item comes from that item's own answer. */
  method ToDispatchItems<T, J, K>(results: seq<WireResult<J>>, brand: Item -> T, brandJob: J -> K,
                                   requested: Option<seq<Item>>)
    returns (reply: Reply<DispatchItem<T, K>>)
    ensures reply.Branded? <==> requested.None? || Covers(requested.value, Items(results))
    ensures reply.Branded? ==>
      && |reply.items| == |results|
      && forall i | 0 <= i < |results| ::
           match results[i]
           case Success(item, job) => reply.items[i] == Queued(brand(item), brandJob(job))
           case Failure(item, error) => reply.items[i] == Rejected(brand(item), error)
  {
    var coverage := ValidateCoverage(requested, Items(results));
    if !coverage.Accepted? {
      return ContractError(coverage);
    }
    return Branded(seq(|results|, i requires 0 <= i < |results| =>
                     if results[i].Success? then Queued(brand(results[i].item), brandJob(results[i].job))
                     else Rejected(brand(results[i].item), results[i].error)));
  }
}
