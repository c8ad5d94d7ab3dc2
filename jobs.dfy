/**
 * HandleListJobsByChart: the jobs of a release are the jobs of the namespace
 * that carry both the chart label and the release-name label. Ownership is a
 * label convention only; the selector below is its single definition.
 */
module JobOwnership {
  import opened Wrappers
  import opened Cluster

  datatype Label = Label(key: string, val: string)

  datatype Job = Job(namespace: string, name: string, labels: map<string, string>)

  const ChartLabel: string := "helm.sh/chart"
  const ReleaseNameLabel: string := "meta.helm.sh/release-name"

  /** The two labels a release's jobs are listed by. */
  function OwnershipSelector(chart: string, releaseName: string): (r: seq<Label>)
    ensures |r| == 2 && r[0].key != r[1].key
    ensures forall l :: l in r <==> l == Label(ChartLabel, chart) || l == Label(ReleaseNameLabel, releaseName)
  {
    assert ChartLabel[0] != ReleaseNameLabel[0];
    [Label(ChartLabel, chart), Label(ReleaseNameLabel, releaseName)]
  }

  /** An equality-based selector: every label must be present with the given value. */
  predicate Matches(selector: seq<Label>, labels: map<string, string>) {
    forall i :: 0 <= i < |selector| ==> selector[i].key in labels && labels[selector[i].key] == selector[i].val
  }

  /** How many of the jobs are in `namespace`. */
  function CountIn(jobs: seq<Job>, namespace: string): nat {
    if jobs == [] then 0
    else (if jobs[0].namespace == namespace then 1 else 0) + CountIn(jobs[1..], namespace)
  }

  /** The jobs of `namespace` that the selector matches, in the cluster's order. */
  function ListJobsByLabel(jobs: seq<Job>, namespace: string, selector: seq<Label>): (r: seq<Job>)
    ensures |r| <= CountIn(jobs, namespace)
    ensures forall j :: j in r <==> j in jobs && j.namespace == namespace && Matches(selector, j.labels)
  {
    if jobs == [] then []
    else
      var rest := ListJobsByLabel(jobs[1..], namespace, selector);
      if jobs[0].namespace == namespace && Matches(selector, jobs[0].labels) then [jobs[0]] + rest else rest
  }

  /** The handler: the cluster's error, or the jobs the ownership selector picks. */
  function ListJobsByChart(jobs: seq<Job>, namespace: string, chart: string, releaseName: string,
                           response: Option<AgentError>): (r: Result<seq<Job>, AgentError>)
    ensures r.Failure? <==> response.Some?
    ensures response.Some? ==> r.error == response.value
    ensures r.Ok? ==> |r.value| <= CountIn(jobs, namespace)
  {
    if response.Some? then Failure(response.value)
    else Ok(ListJobsByLabel(jobs, namespace, OwnershipSelector(chart, releaseName)))
  }

  /** The selector matches exactly the label sets carrying both the chart and the release name. */
  lemma OwnershipSelectorMatchesIff(chart: string, releaseName: string, labels: map<string, string>)
    ensures Matches(OwnershipSelector(chart, releaseName), labels) <==>
      ChartLabel in labels && labels[ChartLabel] == chart &&
      ReleaseNameLabel in labels && labels[ReleaseNameLabel] == releaseName
  {
    var sel := OwnershipSelector(chart, releaseName);
    assert sel[0] == Label(ChartLabel, chart) && sel[1] == Label(ReleaseNameLabel, releaseName);
  }

  /** A job is listed for a release exactly when it is in the namespace and carries both labels. */
  lemma ListedForReleaseIff(jobs: seq<Job>, namespace: string, chart: string, releaseName: string, j: Job)
    ensures ListJobsByChart(jobs, namespace, chart, releaseName, None).Ok?
    ensures j in ListJobsByChart(jobs, namespace, chart, releaseName, None).value <==>
      j in jobs && j.namespace == namespace &&
      ChartLabel in j.labels && j.labels[ChartLabel] == chart &&
      ReleaseNameLabel in j.labels && j.labels[ReleaseNameLabel] == releaseName
  {
    OwnershipSelectorMatchesIff(chart, releaseName, j.labels);
  }

  /** A job carrying only one of the two labels is not listed. */
  lemma OneLabelIsNotOwnership(chart: string, releaseName: string)
    ensures !Matches(OwnershipSelector(chart, releaseName), map[ChartLabel := chart])
    ensures !Matches(OwnershipSelector(chart, releaseName), map[ReleaseNameLabel := releaseName])
  {
    OwnershipSelectorMatchesIff(chart, releaseName, map[ChartLabel := chart]);
    OwnershipSelectorMatchesIff(chart, releaseName, map[ReleaseNameLabel := releaseName]);
    assert ChartLabel != ReleaseNameLabel by {
      assert ChartLabel[0] != ReleaseNameLabel[0];
    }
  }
}
