/**
 * HandleListPods: one cluster query per selector, in the order given, with
 * every pod of every answer appended to the list. The first rejected query
 * ends the request and no list is returned.
 */
module PodListing {
  import opened Wrappers
  import opened Cluster

  datatype Pod = Pod(namespace: string, name: string)

  /**
   * The list built after querying `selectors` in order, where `query` gives the
   * cluster's answer to one selector.
   */
  function Collect(selectors: seq<string>, query: string -> Result<seq<Pod>, AgentError>): Result<seq<Pod>, AgentError>
    decreases |selectors|
  {
    if selectors == [] then Ok([])
    else
      match Collect(selectors[..|selectors| - 1], query)
      case Failure(e) => Failure(e)
      case Ok(pods) =>
        match query(selectors[|selectors| - 1])
        case Failure(e) => Failure(e)
        case Ok(items) => Ok(pods + items)
  }

  /** The handler's nested loop. */
  method ListPods(selectors: seq<string>, query: string -> Result<seq<Pod>, AgentError>)
    returns (r: Result<seq<Pod>, AgentError>)
    ensures r == Collect(selectors, query)
  {
    var pods: seq<Pod> := [];
    var i := 0;
    while i < |selectors|
      invariant 0 <= i <= |selectors|
      invariant Collect(selectors[..i], query) == Ok(pods)
    {
      assert selectors[..i + 1][..i] == selectors[..i];
      var podsList := query(selectors[i]);
      if podsList.Failure? {
        FailureAbsorbs(selectors, i + 1, query);
        return Failure(podsList.error);
      }
      var items := podsList.value;
      ghost var before := pods;
      var j := 0;
      while j < |items|
        invariant 0 <= j <= |items|
        invariant pods == before + items[..j]
      {
        pods := pods + [items[j]];
        j := j + 1;
      }
      assert items[..|items|] == items;
      i := i + 1;
    }
    assert selectors[..i] == selectors;
    r := Ok(pods);
  }

  /** Once a prefix of the selectors has failed, the whole listing fails with the same error. */
  lemma {:induction false} FailureAbsorbs(selectors: seq<string>, n: nat, query: string -> Result<seq<Pod>, AgentError>)
    requires n <= |selectors| && Collect(selectors[..n], query).Failure?
    ensures Collect(selectors, query) == Collect(selectors[..n], query)
    decreases |selectors|
  {
    if n < |selectors| {
      var front := selectors[..|selectors| - 1];
      assert front[..n] == selectors[..n];
      FailureAbsorbs(front, n, query);
    } else {
      assert selectors[..n] == selectors;
    }
  }

  /** A list is produced exactly when every selector's query succeeds. */
  lemma {:induction false} CollectSucceedsIff(selectors: seq<string>, query: string -> Result<seq<Pod>, AgentError>)
    ensures Collect(selectors, query).Ok? <==> forall i :: 0 <= i < |selectors| ==> query(selectors[i]).Ok?
    decreases |selectors|
  {
    if selectors != [] {
      var front := selectors[..|selectors| - 1];
      CollectSucceedsIff(front, query);
      assert forall i :: 0 <= i < |front| ==> front[i] == selectors[i];
    }
  }

  /** The error reported is that of the first selector whose query fails. */
  lemma {:induction false} CollectReportsFirstFailure(selectors: seq<string>, i: nat, query: string -> Result<seq<Pod>, AgentError>)
    requires i < |selectors| && query(selectors[i]).Failure?
    requires forall j :: 0 <= j < i ==> query(selectors[j]).Ok?
    ensures Collect(selectors, query) == Failure(query(selectors[i]).error)
  {
    var upToI := selectors[..i + 1];
    var front := selectors[..i];
    assert upToI[..i] == front;
    assert forall j :: 0 <= j < |front| ==> front[j] == selectors[j];
    CollectSucceedsIff(front, query);
    assert Collect(upToI, query) == Failure(query(selectors[i]).error);
    FailureAbsorbs(selectors, i + 1, query);
  }

  /** Listing two runs of selectors lists the first run's pods, then the second's. */
  lemma {:induction false} CollectAppend(s1: seq<string>, s2: seq<string>, query: string -> Result<seq<Pod>, AgentError>)
    ensures Collect(s1 + s2, query) ==
      match Collect(s1, query)
      case Failure(e) => Failure(e)
      case Ok(first) =>
        match Collect(s2, query)
        case Failure(e) => Failure(e)
        case Ok(second) => Ok(first + second)
    decreases |s2|
  {
    if s2 == [] {
      assert s1 + s2 == s1;
      if Collect(s1, query).Ok? {
        assert Collect(s1, query).value + [] == Collect(s1, query).value;
      }
    } else {
      var front := s2[..|s2| - 1];
      assert (s1 + s2)[..|s1 + s2| - 1] == s1 + front;
      CollectAppend(s1, front, query);
      match Collect(s1, query)
      case Failure(e) =>
      case Ok(first) =>
        match Collect(front, query)
        case Failure(e) =>
        case Ok(mid) =>
          match query(s2[|s2| - 1])
          case Failure(e) =>
          case Ok(items) =>
            assert first + mid + items == first + (mid + items);
    }
  }

  /** The number of times `p` appears across the answers to the selectors. */
  function Occurrences(selectors: seq<string>, query: string -> Result<seq<Pod>, AgentError>, p: Pod): nat
    decreases |selectors|
  {
    if selectors == [] then 0
    else
      Occurrences(selectors[..|selectors| - 1], query, p) +
      match query(selectors[|selectors| - 1])
      case Ok(items) => multiset(items)[p]
      case Failure(_) => 0
  }

  /** Nothing is dropped and nothing is merged: each pod appears as often as the answers hold it. */
  lemma {:induction false} CollectKeepsDuplicates(selectors: seq<string>, query: string -> Result<seq<Pod>, AgentError>, p: Pod)
    requires Collect(selectors, query).Ok?
    ensures multiset(Collect(selectors, query).value)[p] == Occurrences(selectors, query, p)
    decreases |selectors|
  {
    if selectors != [] {
      var front := selectors[..|selectors| - 1];
      CollectKeepsDuplicates(front, query, p);
      var items := query(selectors[|selectors| - 1]).value;
      assert multiset(Collect(front, query).value + items) == multiset(Collect(front, query).value) + multiset(items);
    }
  }

  /**
   * Naming the same selector twice lists its pods twice. This relies on the two
   * queries getting the same answer, which the model assumes by making `query` a
   * function; `CollectKeepsDuplicates` states the absence of deduplication
   * without that assumption.
   */
  lemma RepeatedSelectorRepeatsPods(selector: string, query: string -> Result<seq<Pod>, AgentError>)
    requires query(selector).Ok?
    ensures Collect([selector, selector], query) == Ok(query(selector).value + query(selector).value)
  {
    var items := query(selector).value;
    assert [selector, selector][..1] == [selector];
    assert [selector][..0] == [];
    assert [] + items == items;
    assert Collect([selector], query) == Ok(items);
  }
}
