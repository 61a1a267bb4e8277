/** The aircraft model lookup: one details page per flight number, fetched by a
    pool of workers whose results arrive in completion order, then written into
    the frame row by row through the primary flight number. */
module Enrichment {
  import opened Wrappers
  import Frames

  const UnknownModel: string := "Unknown"

  function DetailsUrl(flightNumber: string): string
  {
    "https://www.radarbox.com/data/flights/" + flightNumber
  }

  /** What fetching the details page of a flight number gives: the request fails
      (connection error, or an error status once the retries are spent), or the page
      is read, with or without a `div` of id `model` and, inside, a `title`
      attribute; or the worker raises something else. */
  datatype DetailsPage =
    | RequestFailed
    | Page(modelDiv: Option<Option<string>>)
    | WorkerRaised

  /** The worker: the flight number paired with the model title, "Unknown" when the model
      is not on the page or the request failed, and `None` when it raises. */
  function GetAircraftDetails(flightNumber: string, page: DetailsPage): (r: Option<(string, string)>)
    ensures r.None? <==> page.WorkerRaised?
    ensures r.Some? ==> r.value.0 == flightNumber
    ensures r.Some? ==> (r.value.1 == UnknownModel <==>
      !(page.Page? && page.modelDiv.Some? && page.modelDiv.value.Some?) || page.modelDiv.value.value == UnknownModel)
    ensures page.Page? && page.modelDiv.Some? && page.modelDiv.value.Some? ==> r == Some((flightNumber, page.modelDiv.value.value))
  {
    match page
    case RequestFailed => Some((flightNumber, UnknownModel))
    case WorkerRaised => None
    case Page(div) =>
      match div
      case None => Some((flightNumber, UnknownModel))
      case Some(title) => Some((flightNumber, title.GetOr(UnknownModel)))
  }

  /** What the pool records for one flight number: the worker's pair, or the number
      with "Unknown" when the worker raised. */
  function WorkerResult(flightNumber: string, page: DetailsPage): (r: (string, string))
    ensures r.0 == flightNumber
    ensures GetAircraftDetails(flightNumber, page).Some? ==> r == GetAircraftDetails(flightNumber, page).value
    ensures GetAircraftDetails(flightNumber, page).None? ==> r.1 == UnknownModel
  {
    GetAircraftDetails(flightNumber, page).GetOr((flightNumber, UnknownModel))
  }

  /** The model recorded for a flight number. */
  function ModelOf(flightNumber: string, page: DetailsPage): string
  {
    WorkerResult(flightNumber, page).1
  }

  /** A failure anywhere in the lookup gives the placeholder model. */
  lemma FailuresGiveUnknown(flightNumber: string, page: DetailsPage)
    requires page.RequestFailed? || page.WorkerRaised? || page == Page(None) || page == Page(Some(None))
    ensures ModelOf(flightNumber, page) == UnknownModel
  {
  }

  /** `order` lists each of the indices 0 .. n-1 exactly once: the order in which the
      submitted lookups complete. */
  predicate IsOrderOf(order: seq<nat>, n: nat)
  {
    && |order| == n
    && Frames.Distinct(order)
    && (forall k :: 0 <= k < n ==> order[k] < n)
    && (forall i: nat :: i < n ==> i in order)
  }

  /** The pairs' flight numbers. */
  function Keys(results: seq<(string, string)>): (ks: seq<string>)
    ensures |ks| == |results| && forall k :: 0 <= k < |results| ==> ks[k] == results[k].0
  {
    seq(|results|, k requires 0 <= k < |results| => results[k].0)
  }

  /** One lookup per submitted flight number; results are collected in completion order
      and an exception from a worker becomes the placeholder pair. The pages and the
      completion order stand for the network and the thread pool. */
  method ProcessFlightNumbersConcurrently(flightNumbers: seq<string>, pages: string -> DetailsPage, completion: seq<nat>)
    returns (results: seq<(string, string)>)
    requires IsOrderOf(completion, |flightNumbers|)
    ensures |results| == |flightNumbers|
    ensures forall k :: 0 <= k < |results| ==>
      results[k] == WorkerResult(flightNumbers[completion[k]], pages(flightNumbers[completion[k]]))
    // every submitted number has its pair, and distinct numbers give distinct keys
    ensures forall fn :: fn in flightNumbers ==> (fn, ModelOf(fn, pages(fn))) in results
    ensures Frames.Distinct(flightNumbers) ==> Frames.Distinct(Keys(results))
  {
    results := [];
    var k := 0;
    while k < |completion|
      invariant 0 <= k <= |completion|
      invariant |results| == k
      invariant forall j :: 0 <= j < k ==>
        results[j] == WorkerResult(flightNumbers[completion[j]], pages(flightNumbers[completion[j]]))
    {
      var fn := flightNumbers[completion[k]];
      var r := GetAircraftDetails(fn, pages(fn));
      if r.Some? {
        results := results + [r.value];
      } else {
        results := results + [(fn, UnknownModel)];
      }
      k := k + 1;
    }
    forall fn | fn in flightNumbers
      ensures (fn, ModelOf(fn, pages(fn))) in results
    {
      var i :| 0 <= i < |flightNumbers| && flightNumbers[i] == fn;
      assert i in completion;
      var j :| 0 <= j < |completion| && completion[j] == i;
      assert results[j] == (fn, ModelOf(fn, pages(fn)));
    }
    if Frames.Distinct(flightNumbers) {
      forall a, b | 0 <= a < b < |results|
        ensures Keys(results)[a] != Keys(results)[b]
      {
        assert completion[a] != completion[b];
      }
    }
  }

  /** The model the last pair for `fn` carries, or `None` when no pair has that number. */
  function LastModel(results: seq<(string, string)>, fn: string): (m: Option<string>)
    ensures m.None? <==> forall k :: 0 <= k < |results| ==> results[k].0 != fn
    ensures m.Some? ==> exists k :: (0 <= k < |results| && results[k] == (fn, m.value)
      && forall k' :: k < k' < |results| ==> results[k'].0 != fn)
  {
    if results == [] then None
    else
      var n := |results| - 1;
      if results[n].0 == fn then
        assert results[n] == (fn, results[n].1);
        Some(results[n].1)
      else
        var init := results[..n];
        var m := LastModel(init, fn);
        assert forall k :: 0 <= k < n ==> init[k] == results[k];
        if m.Some? then
          var k :| 0 <= k < n && init[k] == (fn, m.value) && forall k' :: k < k' < n ==> init[k'].0 != fn;
          assert results[k] == (fn, m.value);
          m
        else m
  }

  /** With distinct flight numbers, each number's model is that of its only pair,
      whatever order the pairs are in. */
  lemma LastModelOfDistinct(results: seq<(string, string)>, fn: string, model: string)
    requires Frames.Distinct(Keys(results))
    requires (fn, model) in results
    ensures LastModel(results, fn) == Some(model)
  {
    var i :| 0 <= i < |results| && results[i] == (fn, model);
    var m := LastModel(results, fn);
    var k :| 0 <= k < |results| && results[k] == (fn, m.value)
      && forall k' :: k < k' < |results| ==> results[k'].0 != fn;
    assert Keys(results)[i] == Keys(results)[k];
  }

  /** The merge does not depend on the order the pairs arrive in when the numbers are
      distinct: two arrivals of the same pairs write the same model. */
  lemma MergeOrderIndependent(r1: seq<(string, string)>, r2: seq<(string, string)>, fn: string)
    requires Frames.Distinct(Keys(r1)) && Frames.Distinct(Keys(r2))
    requires forall p :: p in r1 <==> p in r2
    ensures LastModel(r1, fn) == LastModel(r2, fn)
  {
    var m := LastModel(r1, fn);
    if m.Some? {
      LastModelOfDistinct(r2, fn, m.value);
    } else if LastModel(r2, fn).Some? {
      LastModelOfDistinct(r1, fn, LastModel(r2, fn).value);
    }
  }

  /** `info.loc[primaries == fn] = model`: each row with that primary number gets the model. */
  function AssignWhere(info: seq<Option<string>>, primaries: seq<string>, fn: string, model: string): (r: seq<Option<string>>)
    requires |info| == |primaries|
    ensures |r| == |info|
    ensures forall i :: 0 <= i < |r| ==> r[i] == (if primaries[i] == fn then Some(model) else info[i])
  {
    seq(|info|, i requires 0 <= i < |info| => if primaries[i] == fn then Some(model) else info[i])
  }

  /** The `Aircraft Info` column: for each pair, in the order received, the rows with
      that primary number get its model; rows no pair matches keep a missing value. */
  method MergeAircraftInfo(primaries: seq<string>, results: seq<(string, string)>) returns (info: seq<Option<string>>)
    ensures |info| == |primaries|
    ensures forall i :: 0 <= i < |info| ==> info[i] == LastModel(results, primaries[i])
  {
    info := seq(|primaries|, i => None);
    var k := 0;
    while k < |results|
      invariant 0 <= k <= |results|
      invariant |info| == |primaries|
      invariant forall i :: 0 <= i < |info| ==> info[i] == LastModel(results[..k], primaries[i])
    {
      var (fn, model) := results[k];
      assert results[..k + 1][..k] == results[..k];
      info := AssignWhere(info, primaries, fn, model);
      k := k + 1;
    }
    assert results[..k] == results;
  }
}
