/** What the port answers to a batch of pipeline starts, brought into the shape the caller was promised. */
module PipelineBatch {
  import opened Wrappers

  type Item = string
  type JobId = string

  datatype ItemResult = Success(item: Item, jobId: JobId) | Failure(item: Item, error: string)

  datatype Outcome = Outcome(results: seq<ItemResult>, operationError: Option<string>)

  const BATCH_CONTRACT := "batch contract"

  /** What the failure of a pipeline says that was started but is not shown. */
  function MissingProjection(jobId: JobId): string {
    "missing projection of " + jobId
  }

  /** How often an item was answered. */
  function Answers(results: seq<ItemResult>, item: Item): nat {
    if results == [] then 0
    else Answers(results[..|results| - 1], item) + if results[|results| - 1].item == item then 1 else 0
  }

  /** Which items came back, the last answer to each, the items answered twice or more, and whether
    * anything was out of order so far. */
  ghost predicate Sorted(results: seq<ItemResult>, requested: set<Item>, returned: map<Item, ItemResult>,
                         invalid: set<Item>, violation: bool) {
    && (forall item :: item in returned <==> item in requested && Answers(results, item) > 0)
    && (forall item <- returned :: returned[item] in results && returned[item].item == item)
    && (forall item :: item in invalid <==> item in requested && Answers(results, item) > 1)
    && (violation <==> invalid != {} || exists r <- results :: r.item !in requested)
  }

  /** Goes through the answers once. */
  method SortAnswers(results: seq<ItemResult>, requested: set<Item>)
    returns (returned: map<Item, ItemResult>, invalid: set<Item>, violation: bool)
    ensures Sorted(results, requested, returned, invalid, violation)
  {
    returned, invalid, violation := map[], {}, false;
    for n := 0 to |results|
      invariant Sorted(results[..n], requested, returned, invalid, violation)
    {
      var result := results[n];
      SortStep(results, n, requested, returned, invalid, violation);
      if result.item !in requested {
        violation := true;
        continue;
      }
      if result.item in returned {
        invalid := invalid + {result.item};
        violation := true;
      }
      returned := returned[result.item := result];
    }
    assert results[..|results|] == results;
  }

  lemma SortStep(results: seq<ItemResult>, n: nat, requested: set<Item>, returned: map<Item, ItemResult>,
                 invalid: set<Item>, violation: bool)
    requires n < |results| && Sorted(results[..n], requested, returned, invalid, violation)
    ensures var r := results[n];
      if r.item !in requested then Sorted(results[..n + 1], requested, returned, invalid, true)
      else if r.item in returned then
        Sorted(results[..n + 1], requested, returned[r.item := r], invalid + {r.item}, true)
      else Sorted(results[..n + 1], requested, returned[r.item := r], invalid, violation)
  {
    var r := results[n];
    NextAnswer(results, n);
    assert r in results[..n + 1];
  }

  lemma NextAnswer(results: seq<ItemResult>, n: nat)
    requires n < |results|
    ensures forall x :: x in results[..n + 1] <==> x in results[..n] || x == results[n]
    ensures forall item ::
      Answers(results[..n + 1], item) == Answers(results[..n], item) + if results[n].item == item then 1 else 0
  {
    assert results[..n + 1] == results[..n] + [results[n]] && results[..n + 1][..n] == results[..n];
  }

  function Verdict(item: Item, answered: map<Item, ItemResult>, invalid: set<Item>): ItemResult {
    if item in answered && item !in invalid then answered[item] else Failure(item, BATCH_CONTRACT)
  }

  /** Takes one verdict per requested item; what is left over was not asked for. */
  method TakeVerdicts(requested: seq<Item>, answered: map<Item, ItemResult>, invalid: set<Item>)
    returns (results: seq<ItemResult>, missing: bool, left: map<Item, ItemResult>)
    requires Distinct(requested)
    ensures |results| == |requested|
    ensures forall i | 0 <= i < |requested| :: results[i] == Verdict(requested[i], answered, invalid)
    ensures missing <==> exists item <- requested :: item !in answered && item !in invalid
    ensures forall item <- left :: item in answered && item !in requested
  {
    results, missing, left := [], false, answered;
    for n := 0 to |requested|
      invariant |results| == n
      invariant forall item :: item in left <==> item in answered && item !in requested[..n]
      invariant forall item <- left :: left[item] == answered[item]
      invariant forall i | 0 <= i < n :: results[i] == Verdict(requested[i], answered, invalid)
      invariant missing <==> exists item <- requested[..n] :: item !in answered && item !in invalid
    {
      var item := requested[n];
      assert requested[..n + 1] == requested[..n] + [item];
      assert item !in requested[..n];
      if item in invalid {
        results := results + [Failure(item, BATCH_CONTRACT)];
      } else if item in left {
        results := results + [left[item]];
      } else {
        missing := true;
        results := results + [Failure(item, BATCH_CONTRACT)];
      }
      left := left - {item};
    }
    assert requested[..|requested|] == requested;
  }

  /** Some requested item was not answered exactly once. */
  ghost predicate Uneven(results: seq<ItemResult>, requested: seq<Item>) {
    exists item <- requested :: Answers(results, item) != 1
  }

  ghost predicate Foreign(results: seq<ItemResult>, requested: seq<Item>) {
    exists r <- results :: r.item !in requested
  }

  lemma UnevenOrForeign(results: seq<ItemResult>, requested: seq<Item>, answered: map<Item, ItemResult>,
                        invalid: set<Item>, violation: bool)
    requires Sorted(results, (set item | item in requested), answered, invalid, violation)
    ensures violation || (exists item <- requested :: item !in answered && item !in invalid) <==>
      Uneven(results, requested) || Foreign(results, requested)
  {
  }

  /** One result per requested item, in request order.  An item keeps its verdict exactly if it was answered
    * once; the batch as a whole fails exactly if some item was not, or something else was answered. */
  method NormalizePipelineBatchOutcome(requested: seq<Item>, outcome: Outcome) returns (normal: Outcome)
    requires Distinct(requested)
    ensures |normal.results| == |requested|
    ensures forall i | 0 <= i < |requested| :: normal.results[i].item == requested[i]
    ensures forall i | 0 <= i < |requested| ::
      if Answers(outcome.results, requested[i]) == 1 then normal.results[i] in outcome.results
      else normal.results[i] == Failure(requested[i], BATCH_CONTRACT)
    ensures normal.operationError ==
      if outcome.operationError.None? && (Uneven(outcome.results, requested) || Foreign(outcome.results, requested))
      then Some(BATCH_CONTRACT) else outcome.operationError
  {
    var wanted := set item | item in requested;
    var answered, invalid, violation := SortAnswers(outcome.results, wanted);
    UnevenOrForeign(outcome.results, requested, answered, invalid, violation);
    var results, missing, left := TakeVerdicts(requested, answered, invalid);
    assert left == map[];
    var operationError := outcome.operationError;
    if (violation || missing || left != map[]) && operationError.None? {
      operationError := Some(BATCH_CONTRACT);
    }
    normal := Outcome(results, operationError);
    forall i | 0 <= i < |requested|
      ensures results[i].item == requested[i]
      ensures if Answers(outcome.results, requested[i]) == 1 then results[i] in outcome.results
              else results[i] == Failure(requested[i], BATCH_CONTRACT)
    {
      assert requested[i] in wanted;
    }
  }

  /** A pipeline that was started but is not shown is a failure, of the item and of the batch. */
  method RequireProjections(normal: Outcome, visible: set<JobId>) returns (final: Outcome)
    ensures |final.results| == |normal.results|
    ensures forall i | 0 <= i < |normal.results| :: match normal.results[i]
      case Failure(_, _) => final.results[i] == normal.results[i]
      case Success(item, jobId) =>
        final.results[i] == if jobId in visible then Success(item, jobId) else Failure(item, MissingProjection(jobId))
    ensures final.operationError ==
      if normal.operationError.None? && (exists r <- normal.results :: r.Success? && r.jobId !in visible)
      then Some(BATCH_CONTRACT) else normal.operationError
  {
    var results: seq<ItemResult> := [];
    var missing := false;
    for n := 0 to |normal.results|
      invariant |results| == n
      invariant forall i | 0 <= i < n :: match normal.results[i]
        case Failure(_, _) => results[i] == normal.results[i]
        case Success(item, jobId) =>
          results[i] == if jobId in visible then Success(item, jobId) else Failure(item, MissingProjection(jobId))
      invariant missing <==> exists i | 0 <= i < n :: normal.results[i].Success? && normal.results[i].jobId !in visible
    {
      var result := normal.results[n];
      if result.Success? && result.jobId !in visible {
        missing := true;
        result := Failure(result.item, MissingProjection(result.jobId));
      }
      results := results + [result];
    }
    final := Outcome(results,
                     if missing && normal.operationError.None? then Some(BATCH_CONTRACT) else normal.operationError);
  }
}
