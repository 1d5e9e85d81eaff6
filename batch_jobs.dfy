/**
 * The AWS Batch submission helpers of the data-processing template: the job
 * request `job_parameters` builds, and the choice `latest_job_definition` makes
 * among the registered revisions of a job definition.
 *
 * The random suffix of the job name and the pages `describe_job_definitions`
 * returns are parameters.
 */
module BatchJobs {
  import opened Wrappers
  import opened Seqs
  import opened Strings

  // ---------------------------------------------------------------------------
  // `job_parameters`
  // ---------------------------------------------------------------------------

  /** A named setting of the container overrides: a resource requirement (`type`,
      `value`) or an environment variable (`name`, `value`). */
  datatype Setting = Setting(name: string, value: string)

  datatype ContainerOverrides = ContainerOverrides(
    command: seq<string>,
    resourceRequirements: seq<Setting>,
    environment: seq<Setting>)

  /** The `submit_job` request: `retryStrategy.attempts` is `attempts`. */
  datatype JobRequest = JobRequest(
    jobName: string,
    jobDefinition: string,
    jobQueue: string,
    attempts: int,
    containerOverrides: ContainerOverrides)

  /** The command every job runs. */
  const ProcessCommand: seq<string> := ["python", "-u", "process_script.py"]

  /** `job_parameters`, with `hexHash` standing for `uuid.uuid4().hex[:8]`. Memory is
      given in gigabytes and requested in megabytes (a factor of 1000); the thread
      count the script sees is the vCPU count. */
  function JobParameters(retries: int, cpu: int, memory: int, latestJobDef: string,
                         jobName: string, queue: string, hexHash: string): (r: JobRequest)
    ensures |r.containerOverrides.resourceRequirements| == 2
    ensures |r.containerOverrides.environment| == 1
  {
    JobRequest(
      jobName + "-" + hexHash,
      latestJobDef,
      queue,
      retries,
      ContainerOverrides(
        ProcessCommand,
        [Setting("VCPU", IntToDecimal(cpu)), Setting("MEMORY", IntToDecimal(memory * 1000))],
        [Setting("THREADS", IntToDecimal(cpu))]))
  }

  /** The value of the first setting named `name`, if any. */
  function Lookup(settings: seq<Setting>, name: string): (v: Option<string>)
    ensures v.Some? <==> exists i :: 0 <= i < |settings| && settings[i].name == name
  {
    if settings == [] then None
    else if settings[0].name == name then Some(settings[0].value)
    else
      var rest := Lookup(settings[1..], name);
      assert forall i :: 1 <= i < |settings| ==> settings[i] == settings[1..][i - 1];
      rest
  }

  /** What the request asks for, read back out of it: the job name is the given name,
      a dash and the suffix; the memory value denotes `memory * 1000`; the vCPU value
      and the `THREADS` value are one and the same decimal text, denoting `cpu`; the
      definition, queue, attempts and command are passed through. */
  lemma JobParametersContents(retries: int, cpu: int, memory: int, latestJobDef: string,
                              jobName: string, queue: string, hexHash: string)
    ensures var r := JobParameters(retries, cpu, memory, latestJobDef, jobName, queue, hexHash);
      && r.jobName[..|jobName|] == jobName && r.jobName[|jobName|] == '-' && r.jobName[|jobName| + 1..] == hexHash
      && r.jobDefinition == latestJobDef && r.jobQueue == queue && r.attempts == retries
      && r.containerOverrides.command == ["python", "-u", "process_script.py"]
    ensures var o := JobParameters(retries, cpu, memory, latestJobDef, jobName, queue, hexHash).containerOverrides;
      var mem := Lookup(o.resourceRequirements, "MEMORY");
      mem.Some? && IsDecimal(mem.value) && DecimalValue(mem.value) == memory * 1000
    ensures var o := JobParameters(retries, cpu, memory, latestJobDef, jobName, queue, hexHash).containerOverrides;
      var vcpu := Lookup(o.resourceRequirements, "VCPU");
      && vcpu.Some? && vcpu == Lookup(o.environment, "THREADS")
      && IsDecimal(vcpu.value) && DecimalValue(vcpu.value) == cpu
  {
    var r := JobParameters(retries, cpu, memory, latestJobDef, jobName, queue, hexHash);
    var reqs := r.containerOverrides.resourceRequirements;
    assert reqs[1..][0] == Setting("MEMORY", IntToDecimal(memory * 1000));
    assert "VCPU" != "MEMORY" by {
      assert "VCPU"[0] != "MEMORY"[0];
    }
    IntToDecimalRoundTrip(memory * 1000);
    IntToDecimalRoundTrip(cpu);
  }

  // ---------------------------------------------------------------------------
  // `latest_job_definition`
  // ---------------------------------------------------------------------------

  /** One entry of `describe_job_definitions`. */
  datatype JobDefinition = JobDefinition(arn: string, revision: int)

  /** What goes wrong: `max` over an empty dictionary raises `ValueError`. */
  datatype JobError = NoJobDefinitions

  /** All definitions of all pages, in order. */
  function Flatten(pages: seq<seq<JobDefinition>>): seq<JobDefinition>
  {
    if pages == [] then [] else Flatten(pages[..|pages| - 1]) + pages[|pages| - 1]
  }

  /** The `arns` dictionary's key order: each ARN where it was first inserted. */
  function InsertOrder(defs: seq<JobDefinition>): seq<string>
  {
    if defs == [] then []
    else
      var prev, arn := InsertOrder(defs[..|defs| - 1]), defs[|defs| - 1].arn;
      prev + (if arn in prev then [] else [arn])
  }

  /** The `arns` dictionary's values: the revision last seen for each ARN. */
  function Revisions(defs: seq<JobDefinition>): map<string, int>
  {
    if defs == [] then map[]
    else
      var d := defs[|defs| - 1];
      Revisions(defs[..|defs| - 1])[d.arn := d.revision]
  }

  /** The key order holds exactly the keys of the dictionary. */
  lemma {:induction false} InsertOrderMembers(defs: seq<JobDefinition>, a: string)
    ensures a in InsertOrder(defs) <==> a in Revisions(defs)
  {
    if defs != [] {
      InsertOrderMembers(defs[..|defs| - 1], a);
    }
  }

  /** The key order lists each key of the dictionary once. */
  lemma {:induction false} InsertOrderKeys(defs: seq<JobDefinition>)
    ensures NoDup(InsertOrder(defs))
    ensures forall a :: a in InsertOrder(defs) <==> a in Revisions(defs)
  {
    if defs != [] {
      var prev, arn := InsertOrder(defs[..|defs| - 1]), defs[|defs| - 1].arn;
      InsertOrderKeys(defs[..|defs| - 1]);
      if arn !in prev {
        NoDupSnoc(prev, arn);
      } else {
        assert prev + [] == prev;
      }
    }
  }

  /** A repeated ARN keeps the position of its first insertion and takes the
      revision of its last occurrence. */
  lemma {:induction false} RepeatedArn(defs: seq<JobDefinition>, d: JobDefinition)
    requires d.arn in Revisions(defs)
    ensures InsertOrder(defs + [d]) == InsertOrder(defs)
    ensures Revisions(defs + [d])[d.arn] == d.revision
  {
    InsertOrderKeys(defs);
    assert (defs + [d])[..|defs|] == defs;
    assert InsertOrder(defs) + [] == InsertOrder(defs);
  }

  /** Every recorded revision is the revision of the last definition with that ARN. */
  lemma {:induction false} RevisionIsLastSeen(defs: seq<JobDefinition>, i: nat)
    requires i < |defs|
    requires forall j :: i < j < |defs| ==> defs[j].arn != defs[i].arn
    ensures defs[i].arn in Revisions(defs) && Revisions(defs)[defs[i].arn] == defs[i].revision
  {
    if i < |defs| - 1 {
      RevisionIsLastSeen(defs[..|defs| - 1], i);
    }
  }

  lemma DefinitionsStep(pages: seq<seq<JobDefinition>>, i: nat)
    requires i < |pages|
    ensures Flatten(pages[..i + 1]) == Flatten(pages[..i]) + pages[i]
  {
    assert pages[..i + 1][..i] == pages[..i];
  }

  lemma RecordStep(defs: seq<JobDefinition>, d: JobDefinition)
    ensures InsertOrder(defs + [d]) == InsertOrder(defs) + (if d.arn in InsertOrder(defs) then [] else [d.arn])
    ensures Revisions(defs + [d]) == Revisions(defs)[d.arn := d.revision]
  {
    assert (defs + [d])[..|defs|] == defs;
  }

  /** The inner loop of `latest_job_definition`: `arns[arn] = revision` for every
      definition of one page, with the dictionary's key order kept alongside it. */
  method RecordPage(order: seq<string>, arns: map<string, int>, page: seq<JobDefinition>, ghost seen: seq<JobDefinition>)
    returns (order': seq<string>, arns': map<string, int>)
    requires order == InsertOrder(seen) && arns == Revisions(seen)
    ensures order' == InsertOrder(seen + page) && arns' == Revisions(seen + page)
  {
    order', arns' := order, arns;
    assert seen + page[..0] == seen;
    var j := 0;
    while j < |page|
      invariant 0 <= j <= |page|
      invariant order' == InsertOrder(seen + page[..j]) && arns' == Revisions(seen + page[..j])
    {
      var d := page[j];
      ghost var defs := seen + page[..j];
      InsertOrderMembers(defs, d.arn);
      RecordStep(defs, d);
      if d.arn !in arns' {
        order' := order' + [d.arn];
      }
      arns' := arns'[d.arn := d.revision];
      SnocSlice(seen, page, j);
      j := j + 1;
    }
    assert page[..j] == page;
  }

  /** The dictionary-filling loops of `latest_job_definition`, over all pages. */
  method CollectRevisions(pages: seq<seq<JobDefinition>>) returns (order: seq<string>, arns: map<string, int>)
    ensures order == InsertOrder(Flatten(pages)) && arns == Revisions(Flatten(pages))
  {
    order, arns := [], map[];
    var i := 0;
    while i < |pages|
      invariant 0 <= i <= |pages|
      invariant order == InsertOrder(Flatten(pages[..i])) && arns == Revisions(Flatten(pages[..i]))
    {
      order, arns := RecordPage(order, arns, pages[i], Flatten(pages[..i]));
      DefinitionsStep(pages, i);
      i := i + 1;
    }
    assert pages[..i] == pages;
  }

  /** `max(arns, key=arns.get)`: the first key, in key order, whose value is the
      largest; `max` of an empty dictionary raises. */
  method MaxByValue(order: seq<string>, arns: map<string, int>) returns (r: Result<string, JobError>)
    requires forall a :: a in order <==> a in arns
    ensures r.Failure? <==> order == []
    ensures r.Success? ==> r.value in arns && forall a | a in arns :: arns[a] <= arns[r.value]
    ensures r.Success? ==>
      forall k | 0 <= k < |order| && arns[order[k]] == arns[r.value] :: r.value in order[..k + 1]
  {
    if order == [] {
      return Failure(NoJobDefinitions);
    }
    var best, bestAt := order[0], 0;
    var k := 1;
    while k < |order|
      invariant 1 <= k <= |order|
      invariant 0 <= bestAt < k && best == order[bestAt]
      invariant forall l | 0 <= l < k :: arns[order[l]] <= arns[best]
      invariant forall l | 0 <= l < bestAt :: arns[order[l]] < arns[best]
    {
      if arns[order[k]] > arns[best] {
        best, bestAt := order[k], k;
      }
      k := k + 1;
    }
    forall a | a in arns
      ensures arns[a] <= arns[best]
    {
      var l :| 0 <= l < |order| && order[l] == a;
    }
    forall l | 0 <= l < |order| && arns[order[l]] == arns[best]
      ensures best in order[..l + 1]
    {
      assert order[..l + 1][bestAt] == best;
    }
    r := Success(best);
  }

  /** `latest_job_definition`: the ARN with the highest recorded revision, the first
      inserted on a tie; no definition at all is an error. */
  method LatestJobDefinition(pages: seq<seq<JobDefinition>>) returns (r: Result<string, JobError>)
    ensures r.Failure? <==> Flatten(pages) == []
    ensures r.Success? ==>
      var revs := Revisions(Flatten(pages));
      r.value in revs && forall a | a in revs :: revs[a] <= revs[r.value]
    ensures r.Success? ==>
      var order, revs := InsertOrder(Flatten(pages)), Revisions(Flatten(pages));
      forall k | 0 <= k < |order| && order[k] in revs && revs[order[k]] == revs[r.value] :: r.value in order[..k + 1]
  {
    var order, arns := CollectRevisions(pages);
    InsertOrderKeys(Flatten(pages));
    ghost var defs := Flatten(pages);
    if defs != [] {
      assert defs[|defs| - 1].arn in arns;
    }
    r := MaxByValue(order, arns);
  }
}
