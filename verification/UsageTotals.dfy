/** The two-level totals of scripts/cron_usage_report.ts: what each counted run adds, per job and per model. */
module UsageTotals {
  import opened Base

  datatype Sums = Sums(runs: int, missingUsageRuns: int, inputTokens: int, outputTokens: int, totalTokens: int)

  /** A counted run: its job, its model, and what it adds to both. */
  datatype Sample = Sample(jobId: string, model: string, share: Sums)

  datatype JobAgg = JobAgg(sums: Sums, models: map<string, Sums>)

  const ZERO := Sums(0, 0, 0, 0, 0)

  function Add(a: Sums, b: Sums): Sums {
    Sums(a.runs + b.runs, a.missingUsageRuns + b.missingUsageRuns, a.inputTokens + b.inputTokens,
         a.outputTokens + b.outputTokens, a.totalTokens + b.totalTokens)
  }

  // ---------------------------------------------------------------- what the totals should be

  /** All samples, those of one job, or those of one model of a job. */
  datatype Group = Everything | Job(jobId: string) | ModelOfJob(jobId: string, model: string)

  predicate Belongs(s: Sample, g: Group) {
    match g
    case Everything => true
    case Job(jobId) => s.jobId == jobId
    case ModelOfJob(jobId, model) => s.jobId == jobId && s.model == model
  }

  function SumOf(samples: seq<Sample>, g: Group): Sums {
    if samples == [] then ZERO
    else
      var before, last := SumOf(samples[..|samples| - 1], g), samples[|samples| - 1];
      if Belongs(last, g) then Add(before, last.share) else before
  }

  function Jobs(samples: seq<Sample>): set<string> {
    set s | s in samples :: s.jobId
  }

  function Models(samples: seq<Sample>, jobId: string): set<string> {
    set s | s in samples && s.jobId == jobId :: s.model
  }

  function JobTotals(samples: seq<Sample>, jobId: string): JobAgg {
    JobAgg(SumOf(samples, Job(jobId)),
           map model | model in Models(samples, jobId) :: SumOf(samples, ModelOfJob(jobId, model)))
  }

  function Totals(samples: seq<Sample>): map<string, JobAgg> {
    map jobId | jobId in Jobs(samples) :: JobTotals(samples, jobId)
  }

  // ---------------------------------------------------------------- counting one more run

  /** `m[key] ??= zero`, then every field is increased. */
  function Increase(m: map<string, Sums>, key: string, amount: Sums): map<string, Sums> {
    m[key := Add(if key in m then m[key] else ZERO, amount)]
  }

  function CountSample(totals: map<string, JobAgg>, s: Sample): map<string, JobAgg> {
    var job := if s.jobId in totals then totals[s.jobId] else JobAgg(ZERO, map[]);
    totals[s.jobId := JobAgg(Add(job.sums, s.share), Increase(job.models, s.model, s.share))]
  }

  lemma SumOfMember(samples: seq<Sample>, s: Sample, g: Group)
    requires Belongs(s, g)
    ensures SumOf(samples + [s], g) == Add(SumOf(samples, g), s.share)
  {
  }

  lemma SumOfOutsider(samples: seq<Sample>, s: Sample, g: Group)
    requires !Belongs(s, g)
    ensures SumOf(samples + [s], g) == SumOf(samples, g)
  {
  }

  lemma {:induction false} SumOfNone(samples: seq<Sample>, g: Group)
    requires forall s | s in samples :: !Belongs(s, g)
    ensures SumOf(samples, g) == ZERO
  {
    if samples != [] {
      SumOfNone(samples[..|samples| - 1], g);
    }
  }

  lemma OtherJobUnchanged(samples: seq<Sample>, s: Sample, jobId: string)
    requires jobId != s.jobId
    ensures JobTotals(samples + [s], jobId) == JobTotals(samples, jobId)
  {
  }

  function ModelTotals(samples: seq<Sample>, jobId: string): map<string, Sums> {
    JobTotals(samples, jobId).models
  }

  lemma OwnModelsIncreased(samples: seq<Sample>, s: Sample)
    ensures ModelTotals(samples + [s], s.jobId) == Increase(ModelTotals(samples, s.jobId), s.model, s.share)
  {
    assert Models(samples + [s], s.jobId) == Models(samples, s.jobId) + {s.model};
    SumOfMember(samples, s, ModelOfJob(s.jobId, s.model));
    if s.model !in Models(samples, s.jobId) {
      SumOfNone(samples, ModelOfJob(s.jobId, s.model));
    }
    forall m | m in Models(samples, s.jobId) && m != s.model
      ensures SumOf(samples + [s], ModelOfJob(s.jobId, m)) == SumOf(samples, ModelOfJob(s.jobId, m))
    {
      SumOfOutsider(samples, s, ModelOfJob(s.jobId, m));
    }
  }

  /** The job of the counted run, before and after. */
  lemma OwnJobIncreased(samples: seq<Sample>, s: Sample)
    ensures CountSample(Totals(samples), s)[s.jobId] == JobTotals(samples + [s], s.jobId)
  {
    OwnModelsIncreased(samples, s);
    SumOfMember(samples, s, Job(s.jobId));
    if s.jobId !in Jobs(samples) {
      SumOfNone(samples, Job(s.jobId));
      assert Models(samples, s.jobId) == {};
    }
  }

  /** Counting one more run gives the totals of the longer list. */
  lemma CountingIsTotals(samples: seq<Sample>, s: Sample)
    ensures CountSample(Totals(samples), s) == Totals(samples + [s])
  {
    assert Jobs(samples + [s]) == Jobs(samples) + {s.jobId};
    OwnJobIncreased(samples, s);
    forall jobId | jobId in Jobs(samples) && jobId != s.jobId
      ensures JobTotals(samples + [s], jobId) == JobTotals(samples, jobId)
    {
      OtherJobUnchanged(samples, s, jobId);
    }
  }

  // ---------------------------------------------------------------- conservation

  lemma AddSwap(a: Sums, b: Sums, c: Sums)
    ensures Add(Add(a, b), c) == Add(Add(a, c), b)
    ensures Add(a, Add(b, c)) == Add(Add(a, b), c)
    ensures Add(a, ZERO) == a
  {
  }

  /** The groups one by one. */
  function OverGroups(samples: seq<Sample>, groups: seq<Group>): Sums {
    if groups == [] then ZERO
    else Add(OverGroups(samples, groups[..|groups| - 1]), SumOf(samples, groups[|groups| - 1]))
  }

  /** The groups share out the samples of `whole`: every one of them, and no other, belongs to exactly one group. */
  ghost predicate Partition(samples: seq<Sample>, groups: seq<Group>, whole: Group) {
    forall s | s in samples ::
      && (Belongs(s, whole) ==> exists i :: 0 <= i < |groups| && BelongsOnlyTo(s, groups, i))
      && (!Belongs(s, whole) ==> forall i | 0 <= i < |groups| :: !Belongs(s, groups[i]))
  }

  ghost predicate BelongsOnlyTo(s: Sample, groups: seq<Group>, i: nat)
    requires i < |groups|
  {
    forall j | 0 <= j < |groups| :: Belongs(s, groups[j]) <==> j == i
  }

  lemma {:induction false} OverGroupsOutsider(samples: seq<Sample>, s: Sample, groups: seq<Group>)
    requires forall i | 0 <= i < |groups| :: !Belongs(s, groups[i])
    ensures OverGroups(samples + [s], groups) == OverGroups(samples, groups)
  {
    if groups != [] {
      SumOfOutsider(samples, s, groups[|groups| - 1]);
      OverGroupsOutsider(samples, s, groups[..|groups| - 1]);
    }
  }

  lemma {:induction false} OverGroupsMember(samples: seq<Sample>, s: Sample, groups: seq<Group>, i: nat)
    requires i < |groups| && BelongsOnlyTo(s, groups, i)
    ensures OverGroups(samples + [s], groups) == Add(OverGroups(samples, groups), s.share)
  {
    var init, last := groups[..|groups| - 1], groups[|groups| - 1];
    if i == |groups| - 1 {
      OverGroupsOutsider(samples, s, init);
      SumOfMember(samples, s, last);
      AddSwap(OverGroups(samples, init), SumOf(samples, last), s.share);
    } else {
      assert BelongsOnlyTo(s, init, i);
      OverGroupsMember(samples, s, init, i);
      SumOfOutsider(samples, s, last);
      AddSwap(OverGroups(samples, init), SumOf(samples, last), s.share);
    }
  }

  lemma {:induction false} NothingOverGroups(groups: seq<Group>)
    ensures OverGroups([], groups) == ZERO
  {
    if groups != [] {
      NothingOverGroups(groups[..|groups| - 1]);
      AddSwap(ZERO, ZERO, ZERO);
    }
  }

  /** What the groups of a partition add up to is the figure of the whole. */
  lemma {:induction false} PartsAddUp(samples: seq<Sample>, groups: seq<Group>, whole: Group)
    requires Partition(samples, groups, whole)
    ensures OverGroups(samples, groups) == SumOf(samples, whole)
  {
    if samples == [] {
      NothingOverGroups(groups);
    } else {
      var init, last := samples[..|samples| - 1], samples[|samples| - 1];
      assert samples == init + [last];
      assert last in samples;
      PartsAddUp(init, groups, whole);
      if Belongs(last, whole) {
        var i :| 0 <= i < |groups| && BelongsOnlyTo(last, groups, i);
        OverGroupsMember(init, last, groups, i);
        SumOfMember(init, last, whole);
      } else {
        OverGroupsOutsider(init, last, groups);
        SumOfOutsider(init, last, whole);
      }
    }
  }

  function ModelGroups(jobId: string, models: seq<string>): (r: seq<Group>)
    ensures |r| == |models| && forall i | 0 <= i < |r| :: r[i] == ModelOfJob(jobId, models[i])
  {
    seq(|models|, i requires 0 <= i < |models| => ModelOfJob(jobId, models[i]))
  }

  function JobGroups(jobs: seq<string>): (r: seq<Group>)
    ensures |r| == |jobs| && forall i | 0 <= i < |r| :: r[i] == Job(jobs[i])
  {
    seq(|jobs|, i requires 0 <= i < |jobs| => Job(jobs[i]))
  }

  /** However its models are listed, a job's figures are the sums of its models' figures. */
  lemma JobIsSumOfModels(samples: seq<Sample>, jobId: string, models: seq<string>)
    requires Distinct(models) && Models(samples, jobId) <= Elements(models)
    ensures OverGroups(samples, ModelGroups(jobId, models)) == SumOf(samples, Job(jobId))
  {
    var groups := ModelGroups(jobId, models);
    forall s | s in samples && s.jobId == jobId
      ensures exists i :: 0 <= i < |groups| && BelongsOnlyTo(s, groups, i)
    {
      assert s.model in Models(samples, jobId);
      var i :| 0 <= i < |models| && models[i] == s.model;
      assert BelongsOnlyTo(s, groups, i);
    }
    PartsAddUp(samples, groups, Job(jobId));
  }

  /** However the jobs are listed, together they account for exactly the counted runs. */
  lemma JobsAccountForEverything(samples: seq<Sample>, jobs: seq<string>)
    requires Distinct(jobs) && Jobs(samples) <= Elements(jobs)
    ensures OverGroups(samples, JobGroups(jobs)) == SumOf(samples, Everything)
  {
    var groups := JobGroups(jobs);
    forall s | s in samples ensures exists i :: 0 <= i < |groups| && BelongsOnlyTo(s, groups, i) {
      assert s.jobId in Jobs(samples);
      var i :| 0 <= i < |jobs| && jobs[i] == s.jobId;
      assert BelongsOnlyTo(s, groups, i);
    }
    PartsAddUp(samples, groups, Everything);
  }

  // ---------------------------------------------------------------- order

  lemma {:induction false} SumOfInsert(a: seq<Sample>, s: Sample, b: seq<Sample>, g: Group)
    ensures SumOf(a + [s] + b, g) == SumOf(a + b + [s], g)
  {
    if b == [] {
      assert a + [s] + b == a + [s] && a + b + [s] == a + [s];
    } else {
      var init, last := b[..|b| - 1], b[|b| - 1];
      SumOfInsert(a, s, init, g);
      assert a + [s] + b == (a + [s] + init) + [last] && a + b == (a + init) + [last];
      SwapLastTwo(a + init, s, last, g);
      SameSoFar(a + [s] + init, a + init + [s], last, g);
    }
  }

  lemma SameSoFar(a: seq<Sample>, b: seq<Sample>, s: Sample, g: Group)
    requires SumOf(a, g) == SumOf(b, g)
    ensures SumOf(a + [s], g) == SumOf(b + [s], g)
  {
  }

  lemma SwapLastTwo(a: seq<Sample>, s: Sample, t: Sample, g: Group)
    ensures SumOf(a + [s] + [t], g) == SumOf(a + [t] + [s], g)
  {
  }

  lemma Extract<T>(b: seq<T>, s: T) returns (i: nat)
    requires s in b
    ensures i < |b| && b[i] == s && b == b[..i] + [s] + b[i + 1..]
    ensures multiset(b) == multiset(b[..i] + b[i + 1..]) + multiset{s}
  {
    i :| i < |b| && b[i] == s;
    assert b == b[..i] + [s] + b[i + 1..];
  }

  /** A sum depends only on which samples there are. */
  lemma {:induction false} SumIgnoresOrder(a: seq<Sample>, b: seq<Sample>, g: Group)
    requires multiset(a) == multiset(b)
    ensures SumOf(a, g) == SumOf(b, g)
  {
    if a == [] {
      assert |multiset(b)| == 0;
      assert b == [];
    } else {
      var init, last := a[..|a| - 1], a[|a| - 1];
      assert a == init + [last];
      assert multiset(a) == multiset(init) + multiset{last};
      assert last in multiset(b);
      var i := Extract(b, last);
      var rest := b[..i] + b[i + 1..];
      assert multiset(init) == multiset(a) - multiset{last};
      assert multiset(rest) == multiset(b) - multiset{last};
      SumIgnoresOrder(init, rest, g);
      SumOfInsert(b[..i], last, b[i + 1..], g);
      SameSoFar(init, rest, last, g);
    }
  }

  lemma SameMembers(a: seq<Sample>, b: seq<Sample>)
    requires multiset(a) == multiset(b)
    ensures Jobs(a) == Jobs(b) && forall jobId :: Models(a, jobId) == Models(b, jobId)
  {
    assert forall s :: s in a <==> s in multiset(a);
    assert forall s :: s in b <==> s in multiset(b);
    assert forall s :: s in a <==> s in b;
  }

  /** The totals do not depend on the order of the files or of the lines. */
  lemma TotalsIgnoreOrder(a: seq<Sample>, b: seq<Sample>)
    requires multiset(a) == multiset(b)
    ensures Totals(a) == Totals(b)
  {
    SameMembers(a, b);
    forall jobId | jobId in Jobs(a) ensures JobTotals(a, jobId) == JobTotals(b, jobId) {
      JobTotalsIgnoreOrder(a, b, jobId);
    }
  }

  lemma JobTotalsIgnoreOrder(a: seq<Sample>, b: seq<Sample>, jobId: string)
    requires multiset(a) == multiset(b) && Models(a, jobId) == Models(b, jobId)
    ensures JobTotals(a, jobId) == JobTotals(b, jobId)
  {
    SumIgnoresOrder(a, b, Job(jobId));
    forall model | model in Models(a, jobId)
      ensures SumOf(a, ModelOfJob(jobId, model)) == SumOf(b, ModelOfJob(jobId, model))
    {
      SumIgnoresOrder(a, b, ModelOfJob(jobId, model));
    }
  }

  // ---------------------------------------------------------------- sums, field by field

  lemma SumsSnoc(samples: seq<Sample>, s: Sample, g: Group)
    ensures var before, after := SumOf(samples, g), SumOf(samples + [s], g);
            var n := if Belongs(s, g) then 1 else 0;
            && after.runs == before.runs + n * s.share.runs
            && after.missingUsageRuns == before.missingUsageRuns + n * s.share.missingUsageRuns
            && after.inputTokens == before.inputTokens + n * s.share.inputTokens
            && after.outputTokens == before.outputTokens + n * s.share.outputTokens
            && after.totalTokens == before.totalTokens + n * s.share.totalTokens
  {
    if Belongs(s, g) {
      SumOfMember(samples, s, g);
    } else {
      SumOfOutsider(samples, s, g);
    }
  }

  lemma SumOfOne(s: Sample, g: Group)
    ensures SumOf([s], g) == if Belongs(s, g) then s.share else Sums(0, 0, 0, 0, 0)
    ensures SumOf([], g) == Sums(0, 0, 0, 0, 0)
  {
    SumsSnoc([], s, g);
    assert [] + [s] == [s];
  }

  /** A run counts for everything, for its job, and for its model of its job. */
  lemma BelongsToItsGroups(jobId: string, model: string, share: Sums, otherJob: string, otherModel: string)
    ensures var s := Sample(jobId, model, share);
            && Belongs(s, Everything) && (Belongs(s, Job(otherJob)) <==> otherJob == jobId)
            && (Belongs(s, ModelOfJob(otherJob, otherModel)) <==> otherJob == jobId && otherModel == model)
  {
  }
}
