/** The aggregation and ranking loops of scripts/cron_usage_report.ts. */
module UsageReport {
  import opened Base
  import opened Text
  import opened UsageTotals

  /** A token count as JSON carries it. */
  datatype Count = Absent | Null | Value(number: real)

  datatype Usage = Usage(input: Count, output: Count, total: Count)

  /** A finished run, as a log line records it. */
  datatype Entry = Entry(ts: real, jobId: string, model: Option<string>, usage: Option<Usage>)

  /** The time window and the filters; an empty filter lets everything through. */
  datatype Query = Query(fromMs: real, toMs: real, jobId: string, model: string)

  const UNKNOWN_MODEL := "<unknown>"

  function ModelOf(e: Entry): string {
    var model := Trim(if e.model.Some? then e.model.value else UNKNOWN_MODEL);
    if model == "" then UNKNOWN_MODEL else model
  }

  predicate Accepts(q: Query, e: Entry) {
    && q.fromMs <= e.ts <= q.toMs
    && (q.jobId == "" || e.jobId == q.jobId)
    && (q.model == "" || ModelOf(e) == q.model)
  }

  /** `total ?? input ?? output` is not undefined: a null output counts as usage. */
  predicate HasUsage(e: Entry) {
    e.usage.Some? &&
    (e.usage.value.total.Value? || e.usage.value.input.Value? || !e.usage.value.output.Absent?)
  }

  /** `Math.max(0, Math.trunc(count ?? fallback))`. */
  function Tokens(count: Count, fallback: int): (n: int)
    ensures n >= 0
  {
    var n := if count.Value? then Trunc(count.number) else fallback;
    if n < 0 then 0 else n
  }

  function Contribution(e: Entry): Sums {
    if !HasUsage(e) then Sums(1, 1, 0, 0, 0)
    else
      var input, output := Tokens(e.usage.value.input, 0), Tokens(e.usage.value.output, 0);
      Sums(1, 0, input, output, Tokens(e.usage.value.total, input + output))
  }

  function SampleOf(e: Entry): Sample {
    Sample(e.jobId, ModelOf(e), Contribution(e))
  }

  /** The samples of the accepted entries among the first `n` lines of a file; None is a line that does not parse. */
  function FileSamples(q: Query, lines: seq<Option<Entry>>, n: nat): seq<Sample>
    requires n <= |lines|
  {
    if n == 0 then []
    else
      var line := lines[n - 1];
      FileSamples(q, lines, n - 1) + if line.Some? && Accepts(q, line.value) then [SampleOf(line.value)] else []
  }

  /** The samples of the first `n` files. */
  function Samples(q: Query, files: seq<seq<Option<Entry>>>, n: nat): seq<Sample>
    requires n <= |files|
  {
    if n == 0 then [] else Samples(q, files, n - 1) + FileSamples(q, files[n - 1], |files[n - 1]|)
  }

  // ---------------------------------------------------------------- aggregation

  method CountLine(totals: map<string, JobAgg>, e: Entry, ghost counted: seq<Sample>)
    returns (after: map<string, JobAgg>)
    requires totals == Totals(counted)
    ensures after == Totals(counted + [SampleOf(e)])
  {
    var model := ModelOf(e);
    var contribution := Contribution(e);
    var jobAgg := if e.jobId in totals then totals[e.jobId] else JobAgg(ZERO, map[]);
    var modelAgg := if model in jobAgg.models then jobAgg.models[model] else ZERO;
    after := totals[e.jobId := JobAgg(Add(jobAgg.sums, contribution),
                                      jobAgg.models[model := Add(modelAgg, contribution)])];
    CountingIsTotals(counted, SampleOf(e));
  }

  lemma NextLine(q: Query, lines: seq<Option<Entry>>, i: nat, counted: seq<Sample>)
    requires i < |lines|
    ensures counted + FileSamples(q, lines, i + 1) ==
            if lines[i].Some? && Accepts(q, lines[i].value)
            then counted + FileSamples(q, lines, i) + [SampleOf(lines[i].value)]
            else counted + FileSamples(q, lines, i)
  {
  }

  method AggregateFile(q: Query, lines: seq<Option<Entry>>, totals: map<string, JobAgg>, ghost counted: seq<Sample>)
    returns (after: map<string, JobAgg>)
    requires totals == Totals(counted)
    ensures after == Totals(counted + FileSamples(q, lines, |lines|))
  {
    after := totals;
    assert counted + [] == counted;
    for i := 0 to |lines|
      invariant after == Totals(counted + FileSamples(q, lines, i))
    {
      NextLine(q, lines, i, counted);
      if lines[i].None? || !Accepts(q, lines[i].value) {
        continue;
      }
      after := CountLine(after, lines[i].value, counted + FileSamples(q, lines, i));
    }
  }

  /** The loops over the files and their lines. */
  method Aggregate(q: Query, files: seq<seq<Option<Entry>>>) returns (totals: map<string, JobAgg>)
    ensures totals == Totals(Samples(q, files, |files|))
  {
    totals := map[];
    assert totals == Totals([]);
    for i := 0 to |files|
      invariant totals == Totals(Samples(q, files, i))
    {
      totals := AggregateFile(q, files[i], totals, Samples(q, files, i));
    }
  }

  // ---------------------------------------------------------------- ranking

  ghost predicate Descends<T>(rows: seq<T>, total: T -> int) {
    forall i, j | 0 <= i < j < |rows| :: total(rows[i]) >= total(rows[j])
  }

  /** Puts a row behind the rows with at least its total. */
  function Insert<T>(rows: seq<T>, row: T, total: T -> int): (r: seq<T>)
    ensures |r| == |rows| + 1
  {
    if rows == [] || total(rows[|rows| - 1]) >= total(row) then rows + [row]
    else Insert(rows[..|rows| - 1], row, total) + [rows[|rows| - 1]]
  }

  /** `toSorted((a, b) => total(b) - total(a))`, which is stable. */
  function Ranked<T>(rows: seq<T>, total: T -> int): (r: seq<T>)
    ensures |r| == |rows|
  {
    if rows == [] then [] else Insert(Ranked(rows[..|rows| - 1], total), rows[|rows| - 1], total)
  }

  /** The rows with a given total, in order. */
  function WithTotal<T>(rows: seq<T>, total: T -> int, n: int): seq<T> {
    if rows == [] then []
    else WithTotal(rows[..|rows| - 1], total, n) +
         if total(rows[|rows| - 1]) == n then [rows[|rows| - 1]] else []
  }

  lemma WithTotalSnoc<T>(rows: seq<T>, row: T, total: T -> int, n: int)
    ensures WithTotal(rows + [row], total, n) == WithTotal(rows, total, n) + if total(row) == n then [row] else []
  {
  }

  /** Inserting keeps each class of equal totals in order, the new row last. */
  lemma {:induction false} InsertIsStable<T>(rows: seq<T>, row: T, total: T -> int, n: int)
    ensures WithTotal(Insert(rows, row, total), total, n) == WithTotal(rows + [row], total, n)
  {
    if !(rows == [] || total(rows[|rows| - 1]) >= total(row)) {
      var init, last := rows[..|rows| - 1], rows[|rows| - 1];
      InsertIsStable(init, row, total, n);
      WithTotalSnoc(Insert(init, row, total), last, total, n);
      WithTotalSnoc(init, row, total, n);
      WithTotalSnoc(rows, row, total, n);
    }
  }

  lemma {:induction false} InsertKeepsRows<T>(rows: seq<T>, row: T, total: T -> int)
    ensures multiset(Insert(rows, row, total)) == multiset(rows) + multiset{row}
  {
    if !(rows == [] || total(rows[|rows| - 1]) >= total(row)) {
      var init, last := rows[..|rows| - 1], rows[|rows| - 1];
      InsertKeepsRows(init, row, total);
      assert rows == init + [last];
    }
  }

  lemma DescendsSnoc<T>(rows: seq<T>, row: T, total: T -> int)
    requires Descends(rows, total) && forall r | r in rows :: total(r) >= total(row)
    ensures Descends(rows + [row], total)
  {
  }

  lemma {:induction false} InsertDescends<T>(rows: seq<T>, row: T, total: T -> int)
    requires Descends(rows, total)
    ensures Descends(Insert(rows, row, total), total)
  {
    if rows == [] || total(rows[|rows| - 1]) >= total(row) {
      DescendsSnoc(rows, row, total);
    } else {
      var init, last := rows[..|rows| - 1], rows[|rows| - 1];
      InsertDescends(init, row, total);
      InsertKeepsRows(init, row, total);
      forall r | r in Insert(init, row, total) ensures total(r) >= total(last) {
        assert r in multiset(Insert(init, row, total));
        assert r == row || r in init;
      }
      DescendsSnoc(Insert(init, row, total), last, total);
    }
  }

  /** Ranking sorts by descending total, keeps every row, and leaves rows of equal total in their order. */
  lemma {:induction false} RankingSorts<T>(rows: seq<T>, total: T -> int)
    ensures Descends(Ranked(rows, total), total) && multiset(Ranked(rows, total)) == multiset(rows)
    ensures forall n :: WithTotal(Ranked(rows, total), total, n) == WithTotal(rows, total, n)
  {
    if rows != [] {
      var init, last := rows[..|rows| - 1], rows[|rows| - 1];
      assert rows == init + [last];
      RankingSorts(init, total);
      InsertDescends(Ranked(init, total), last, total);
      InsertKeepsRows(Ranked(init, total), last, total);
      forall n ensures WithTotal(Ranked(rows, total), total, n) == WithTotal(rows, total, n) {
        InsertIsStable(Ranked(init, total), last, total, n);
        WithTotalSnoc(Ranked(init, total), last, total, n);
        WithTotalSnoc(init, last, total, n);
      }
    }
  }

  datatype ModelRow = ModelRow(model: string, sums: Sums)

  datatype JobRow = JobRow(jobId: string, sums: Sums, models: seq<ModelRow>)

  function ModelTotal(row: ModelRow): int {
    row.sums.totalTokens
  }

  function JobTotal(row: JobRow): int {
    row.sums.totalTokens
  }

  function ModelRows(models: map<string, Sums>, order: seq<string>): (r: seq<ModelRow>)
    requires forall k | k in order :: k in models
    ensures |r| == |order| && forall i | 0 <= i < |r| :: r[i] == ModelRow(order[i], models[order[i]])
  {
    if order == [] then []
    else ModelRows(models, order[..|order| - 1]) + [ModelRow(order[|order| - 1], models[order[|order| - 1]])]
  }

  /** The listing orders of `Object.values`: of the jobs, and of each job's models. */
  datatype Listing = Listing(jobs: seq<string>, models: map<string, seq<string>>)

  ghost predicate Lists(totals: map<string, JobAgg>, listing: Listing) {
    && Distinct(listing.jobs) && Elements(listing.jobs) == totals.Keys
    && forall j | j in totals ::
         j in listing.models && Distinct(listing.models[j]) && Elements(listing.models[j]) == totals[j].models.Keys
  }

  lemma ListedModel(totals: map<string, JobAgg>, listing: Listing, j: string)
    requires Lists(totals, listing) && j in listing.jobs
    ensures j in totals && j in listing.models && forall k | k in listing.models[j] :: k in totals[j].models
  {
  }

  ghost function RowOf(totals: map<string, JobAgg>, listing: Listing, j: string): JobRow
    requires Lists(totals, listing) && j in listing.jobs
  {
    ListedModel(totals, listing, j);
    JobRow(j, totals[j].sums, Ranked(ModelRows(totals[j].models, listing.models[j]), ModelTotal))
  }

  ghost function Rows(totals: map<string, JobAgg>, listing: Listing, n: nat): (r: seq<JobRow>)
    requires Lists(totals, listing) && n <= |listing.jobs|
    ensures |r| == n && forall i | 0 <= i < n :: r[i] == RowOf(totals, listing, listing.jobs[i])
  {
    seq(n, i requires 0 <= i < n => RowOf(totals, listing, listing.jobs[i]))
  }

  lemma RowIsRanked(totals: map<string, JobAgg>, listing: Listing, j: string)
    requires Lists(totals, listing) && j in listing.jobs
    ensures var row := RowOf(totals, listing, j); row.jobId == j && Descends(row.models, ModelTotal)
  {
    ListedModel(totals, listing, j);
    RankingSorts(ModelRows(totals[j].models, listing.models[j]), ModelTotal);
  }

  /** The reported rows: one for every job, by descending total. */
  ghost function Report(totals: map<string, JobAgg>, listing: Listing): seq<JobRow>
    requires Lists(totals, listing)
  {
    Ranked(Rows(totals, listing, |listing.jobs|), JobTotal)
  }

  lemma SameMultisetMembers<T>(a: seq<T>, b: seq<T>)
    requires multiset(a) == multiset(b)
    ensures |a| == |b| && forall x :: x in a <==> x in b
  {
    assert |a| == |multiset(a)| && |b| == |multiset(b)|;
    assert forall x :: x in a <==> x in multiset(a);
    assert forall x :: x in b <==> x in multiset(b);
  }

  lemma {:induction false} DistinctCount<T>(s: seq<T>, x: T)
    requires Distinct(s)
    ensures multiset(s)[x] <= 1
  {
    if s != [] {
      var init, last := s[..|s| - 1], s[|s| - 1];
      assert s == init + [last];
      DistinctCount(init, x);
      assert multiset(s)[x] == multiset(init)[x] + multiset([last])[x];
    }
  }

  lemma CountedTwice<T>(s: seq<T>, i: nat, j: nat)
    requires i < j < |s| && s[i] == s[j]
    ensures multiset(s)[s[i]] >= 2
  {
    assert s == s[..j] + [s[j]] + s[j + 1..];
    assert s[i] in s[..j];
    assert multiset(s) == multiset(s[..j]) + multiset([s[j]]) + multiset(s[j + 1..]);
  }

  function JobIds(rows: seq<JobRow>): (r: seq<string>)
    ensures |r| == |rows| && forall i | 0 <= i < |r| :: r[i] == rows[i].jobId
  {
    seq(|rows|, i requires 0 <= i < |rows| => rows[i].jobId)
  }

  lemma IdsApart(rows: seq<JobRow>, ranked: seq<JobRow>, i: nat, k: nat)
    requires multiset(ranked) == multiset(rows) && Distinct(JobIds(rows)) && i < k < |ranked|
    ensures ranked[i].jobId != ranked[k].jobId
  {
    var ids := JobIds(rows);
    assert Distinct(rows) by {
      assert forall a, b | 0 <= a < b < |rows| :: ids[a] != ids[b];
    }
    SameMultisetMembers(ranked, rows);
    assert ranked[i] in rows && ranked[k] in rows;
    var a :| 0 <= a < |rows| && rows[a] == ranked[i];
    var b :| 0 <= b < |rows| && rows[b] == ranked[k];
    if a == b {
      CountedTwice(ranked, i, k);
      DistinctCount(rows, ranked[i]);
    } else {
      assert ids[a] != ids[b];
    }
  }

  /** Reordered rows are about the same jobs, each once. */
  lemma IdsReordered(rows: seq<JobRow>, ranked: seq<JobRow>)
    requires multiset(ranked) == multiset(rows) && Distinct(JobIds(rows))
    ensures Distinct(JobIds(ranked)) && Elements(JobIds(ranked)) == Elements(JobIds(rows))
  {
    forall i, k | 0 <= i < k < |ranked| ensures JobIds(ranked)[i] != JobIds(ranked)[k] {
      IdsApart(rows, ranked, i, k);
    }
    IdsAmong(rows, ranked);
    IdsAmong(ranked, rows);
  }

  lemma IdsAmong(rows: seq<JobRow>, ranked: seq<JobRow>)
    requires multiset(ranked) == multiset(rows)
    ensures Elements(JobIds(ranked)) <= Elements(JobIds(rows))
  {
    SameMultisetMembers(ranked, rows);
    forall id | id in JobIds(ranked) ensures id in JobIds(rows) {
      var i :| 0 <= i < |ranked| && JobIds(ranked)[i] == id;
      assert ranked[i] in rows;
      var k :| 0 <= k < |rows| && rows[k] == ranked[i];
      assert JobIds(rows)[k] == id;
    }
  }

  /** Before ranking, there is one row for each listed job. */
  lemma RowsOfJobs(totals: map<string, JobAgg>, listing: Listing)
    requires Lists(totals, listing)
    ensures var rows := Rows(totals, listing, |listing.jobs|);
            && JobIds(rows) == listing.jobs && Distinct(listing.jobs) && Elements(listing.jobs) == totals.Keys
            && forall row | row in rows :: row.jobId in listing.jobs && row == RowOf(totals, listing, row.jobId)
  {
  }

  /** The rows of the report are the jobs, each once, by descending total. */
  lemma ReportIsRanked(totals: map<string, JobAgg>, listing: Listing)
    requires Lists(totals, listing)
    ensures var report := Report(totals, listing);
            && Descends(report, JobTotal)
            && Distinct(JobIds(report)) && Elements(JobIds(report)) == totals.Keys
            && forall row | row in report :: row.jobId in listing.jobs && row == RowOf(totals, listing, row.jobId)
  {
    var rows := Rows(totals, listing, |listing.jobs|);
    RowsOfJobs(totals, listing);
    RankingSorts(rows, JobTotal);
    IdsReordered(rows, Report(totals, listing));
    SameMultisetMembers(Report(totals, listing), rows);
  }

  // ---------------------------------------------------------------- conservation in the report

  /** The figures of some rows, added up. */
  function SumRows<T>(rows: seq<T>, sums: T -> Sums): Sums {
    if rows == [] then ZERO else Add(SumRows(rows[..|rows| - 1], sums), sums(rows[|rows| - 1]))
  }

  function ModelSums(row: ModelRow): Sums {
    row.sums
  }

  function JobSums(row: JobRow): Sums {
    row.sums
  }

  lemma SumRowsSnoc<T>(rows: seq<T>, row: T, sums: T -> Sums)
    ensures SumRows(rows + [row], sums) == Add(SumRows(rows, sums), sums(row))
  {
    assert (rows + [row])[..|rows|] == rows;
  }

  lemma {:induction false} SumRowsInsert<T>(a: seq<T>, row: T, b: seq<T>, sums: T -> Sums)
    ensures SumRows(a + [row] + b, sums) == Add(SumRows(a + b, sums), sums(row))
  {
    if b == [] {
      assert a + [row] + b == a + [row] && a + b == a;
      SumRowsSnoc(a, row, sums);
    } else {
      var init, last := b[..|b| - 1], b[|b| - 1];
      assert a + [row] + b == a + [row] + init + [last] && a + b == a + init + [last];
      SumRowsInsert(a, row, init, sums);
      SumRowsSnoc(a + [row] + init, last, sums);
      SumRowsSnoc(a + init, last, sums);
      AddSwap(SumRows(a + init, sums), sums(row), sums(last));
    }
  }

  /** A sum over rows depends only on which rows there are. */
  lemma {:induction false} SumRowsIgnoresOrder<T>(a: seq<T>, b: seq<T>, sums: T -> Sums)
    requires multiset(a) == multiset(b)
    ensures SumRows(a, sums) == SumRows(b, sums)
  {
    SameMultisetMembers(a, b);
    if a != [] {
      var init, last := a[..|a| - 1], a[|a| - 1];
      assert a == init + [last];
      assert multiset(a) == multiset(init) + multiset{last};
      var i := Extract(b, last);
      var rest := b[..i] + b[i + 1..];
      assert multiset(init) == multiset(a) - multiset{last};
      assert multiset(rest) == multiset(b) - multiset{last};
      SumRowsIgnoresOrder(init, rest, sums);
      SumRowsInsert(b[..i], last, b[i + 1..], sums);
    }
  }

  lemma {:induction false} ListedModelsAddUp(samples: seq<Sample>, jobId: string, order: seq<string>)
    requires forall k | k in order :: k in Models(samples, jobId)
    ensures SumRows(ModelRows(JobTotals(samples, jobId).models, order), ModelSums) ==
            OverGroups(samples, ModelGroups(jobId, order))
  {
    if order != [] {
      var n := |order| - 1;
      ListedModelsAddUp(samples, jobId, order[..n]);
      var rows, groups := ModelRows(JobTotals(samples, jobId).models, order), ModelGroups(jobId, order);
      assert rows[..n] == ModelRows(JobTotals(samples, jobId).models, order[..n]);
      assert groups[..n] == ModelGroups(jobId, order[..n]);
      assert order[n] in order;
    }
  }

  lemma RowConserves(samples: seq<Sample>, listing: Listing, jobId: string)
    requires Lists(Totals(samples), listing) && jobId in listing.jobs
    ensures SumRows(RowOf(Totals(samples), listing, jobId).models, ModelSums) ==
            RowOf(Totals(samples), listing, jobId).sums
  {
    var order := listing.models[jobId];
    ListedModel(Totals(samples), listing, jobId);
    forall k | k in order ensures k in Models(samples, jobId) {
      assert k in Elements(order);
    }
    var rows := ModelRows(JobTotals(samples, jobId).models, order);
    RankingSorts(rows, ModelTotal);
    SumRowsIgnoresOrder(Ranked(rows, ModelTotal), rows, ModelSums);
    ListedModelsAddUp(samples, jobId, order);
    JobIsSumOfModels(samples, jobId, order);
  }

  /** Rows that hold the figures of their jobs add up to the figures of those jobs. */
  lemma {:induction false} ListedJobsAddUp(samples: seq<Sample>, rows: seq<JobRow>, jobs: seq<string>)
    requires JobIds(rows) == jobs && forall row | row in rows :: row.sums == SumOf(samples, Job(row.jobId))
    ensures SumRows(rows, JobSums) == OverGroups(samples, JobGroups(jobs))
  {
    if rows != [] {
      var n := |rows| - 1;
      assert JobIds(rows[..n]) == jobs[..n];
      ListedJobsAddUp(samples, rows[..n], jobs[..n]);
      assert JobGroups(jobs)[..n] == JobGroups(jobs[..n]);
      assert rows[n] in rows && jobs[n] == rows[n].jobId;
    }
  }

  lemma RowHoldsSums(samples: seq<Sample>, listing: Listing, jobId: string)
    requires Lists(Totals(samples), listing) && jobId in listing.jobs
    ensures RowOf(Totals(samples), listing, jobId).sums == SumOf(samples, Job(jobId))
  {
    ListedModel(Totals(samples), listing, jobId);
  }

  lemma RowsAddUp(samples: seq<Sample>, listing: Listing)
    requires Lists(Totals(samples), listing)
    ensures SumRows(Rows(Totals(samples), listing, |listing.jobs|), JobSums) == SumOf(samples, Everything)
  {
    var rows := Rows(Totals(samples), listing, |listing.jobs|);
    RowsOfJobs(Totals(samples), listing);
    forall row | row in rows ensures row.sums == SumOf(samples, Job(row.jobId)) {
      RowHoldsSums(samples, listing, row.jobId);
    }
    ListedJobsAddUp(samples, rows, listing.jobs);
    JobsAccountForEverything(samples, listing.jobs);
  }

  /** In the report, every job's figures are those of its models, and all jobs together those of everything counted. */
  lemma ReportConserves(samples: seq<Sample>, listing: Listing)
    requires Lists(Totals(samples), listing)
    ensures var report := Report(Totals(samples), listing);
            && (forall row | row in report :: SumRows(row.models, ModelSums) == row.sums)
            && SumRows(report, JobSums) == SumOf(samples, Everything)
  {
    var report := Report(Totals(samples), listing);
    ReportIsRanked(Totals(samples), listing);
    forall row | row in report ensures SumRows(row.models, ModelSums) == row.sums {
      RowConserves(samples, listing, row.jobId);
    }
    RankingSorts(Rows(Totals(samples), listing, |listing.jobs|), JobTotal);
    SumRowsIgnoresOrder(report, Rows(Totals(samples), listing, |listing.jobs|), JobSums);
    RowsAddUp(samples, listing);
  }

  lemma {:induction false} EverythingCounts(samples: seq<Sample>)
    requires forall s | s in samples :: s.share.runs == 1
    ensures SumOf(samples, Everything).runs == |samples|
  {
    if samples != [] {
      EverythingCounts(samples[..|samples| - 1]);
    }
  }

  // ---------------------------------------------------------------- lines, in whatever files and order

  /** All lines of all files. */
  function Lines(files: seq<seq<Option<Entry>>>): seq<Option<Entry>> {
    if files == [] then [] else Lines(files[..|files| - 1]) + files[|files| - 1]
  }

  /** How many lines hold an accepted entry. */
  function AcceptedCount(q: Query, lines: seq<Option<Entry>>): nat {
    if lines == [] then 0
    else
      var last := lines[|lines| - 1];
      AcceptedCount(q, lines[..|lines| - 1]) + if last.Some? && Accepts(q, last.value) then 1 else 0
  }

  lemma {:induction false} OnlyPrefixCounts(q: Query, a: seq<Option<Entry>>, b: seq<Option<Entry>>, n: nat)
    requires n <= |a| && n <= |b| && forall i | 0 <= i < n :: a[i] == b[i]
    ensures FileSamples(q, a, n) == FileSamples(q, b, n)
  {
    if n > 0 {
      OnlyPrefixCounts(q, a, b, n - 1);
    }
  }

  function LineSamples(q: Query, line: Option<Entry>): seq<Sample> {
    if line.Some? && Accepts(q, line.value) then [SampleOf(line.value)] else []
  }

  lemma SamplesSnoc(q: Query, lines: seq<Option<Entry>>, line: Option<Entry>)
    ensures FileSamples(q, lines + [line], |lines + [line]|) == FileSamples(q, lines, |lines|) + LineSamples(q, line)
  {
    OnlyPrefixCounts(q, lines + [line], lines, |lines|);
  }

  lemma {:induction false} SamplesOfBoth(q: Query, a: seq<Option<Entry>>, b: seq<Option<Entry>>)
    ensures FileSamples(q, a + b, |a + b|) == FileSamples(q, a, |a|) + FileSamples(q, b, |b|)
  {
    if b == [] {
      assert a + b == a;
    } else {
      var init, last := b[..|b| - 1], b[|b| - 1];
      assert b == init + [last] && a + b == a + init + [last];
      SamplesOfBoth(q, a, init);
      SamplesSnoc(q, a + init, last);
      SamplesSnoc(q, init, last);
    }
  }

  lemma {:induction false} SamplesOfLines(q: Query, files: seq<seq<Option<Entry>>>, n: nat)
    requires n <= |files|
    ensures Samples(q, files, n) == FileSamples(q, Lines(files[..n]), |Lines(files[..n])|)
  {
    if n > 0 {
      SamplesOfLines(q, files, n - 1);
      assert files[..n][..n - 1] == files[..n - 1];
      SamplesOfBoth(q, Lines(files[..n - 1]), files[n - 1]);
    }
  }

  lemma {:induction false} SamplesIgnoreOrder(q: Query, a: seq<Option<Entry>>, b: seq<Option<Entry>>)
    requires multiset(a) == multiset(b)
    ensures multiset(FileSamples(q, a, |a|)) == multiset(FileSamples(q, b, |b|))
  {
    if a == [] {
      assert |multiset(b)| == 0;
      assert b == [];
    } else {
      var init, last := a[..|a| - 1], a[|a| - 1];
      assert a == init + [last];
      assert multiset(a) == multiset(init) + multiset{last};
      assert last in multiset(b);
      var i := Extract(b, last);
      var before, after := b[..i], b[i + 1..];
      assert multiset(init) == multiset(a) - multiset{last};
      assert multiset(before + after) == multiset(b) - multiset{last};
      SamplesIgnoreOrder(q, init, before + after);
      SamplesSnoc(q, init, last);
      SamplesOfBoth(q, before, after);
      SamplesOfBoth(q, before + [last], after);
      SamplesSnoc(q, before, last);
    }
  }

  /** The totals of a report do not depend on how its lines are spread over files or ordered in them. */
  lemma FilesAndLinesInAnyOrder(q: Query, files: seq<seq<Option<Entry>>>, files': seq<seq<Option<Entry>>>)
    requires multiset(Lines(files)) == multiset(Lines(files'))
    ensures Totals(Samples(q, files, |files|)) == Totals(Samples(q, files', |files'|))
  {
    SamplesOfLines(q, files, |files|);
    SamplesOfLines(q, files', |files'|);
    assert files[..|files|] == files && files'[..|files'|] == files';
    SamplesIgnoreOrder(q, Lines(files), Lines(files'));
    TotalsIgnoreOrder(Samples(q, files, |files|), Samples(q, files', |files'|));
  }

  lemma {:induction false} OneRunPerEntry(q: Query, lines: seq<Option<Entry>>)
    ensures |FileSamples(q, lines, |lines|)| == AcceptedCount(q, lines)
    ensures forall s | s in FileSamples(q, lines, |lines|) :: s.share.runs == 1
  {
    if lines != [] {
      var init := lines[..|lines| - 1];
      OneRunPerEntry(q, init);
      OnlyPrefixCounts(q, lines, init, |init|);
    }
  }

  /** The runs of all reported jobs are as many as there are accepted entries. */
  lemma RunsAreAcceptedEntries(q: Query, files: seq<seq<Option<Entry>>>, listing: Listing)
    requires Lists(Totals(Samples(q, files, |files|)), listing)
    ensures SumRows(Report(Totals(Samples(q, files, |files|)), listing), JobSums).runs == AcceptedCount(q, Lines(files))
  {
    SamplesOfLines(q, files, |files|);
    assert files[..|files|] == files;
    OneRunPerEntry(q, Lines(files));
    ReportConserves(Samples(q, files, |files|), listing);
    EverythingCounts(Samples(q, files, |files|));
  }

  // ---------------------------------------------------------------- an entry, told in numbers

  /** A missing or blank model is unknown, and any other is trimmed. */
  lemma ModelNames(e: Entry)
    ensures ModelOf(e) == if e.model.None? || Trim(e.model.value) == "" then "<unknown>" else Trim(e.model.value)
  {
    TrimmedFixpoint("<unknown>");
  }

  /** An entry is left out when it is too early, too late, of another job or of another model. */
  lemma LeftOut(q: Query, e: Entry)
    ensures !Accepts(q, e) <==>
            || e.ts < q.fromMs || e.ts > q.toMs || (q.jobId != "" && q.jobId != e.jobId)
            || (q.model != "" && q.model != ModelOf(e))
  {
  }

  /** A count that is a number is cut to a whole one and never below zero; any other counts nothing. */
  function Whole(count: Count): int {
    if count.Value? && count.number >= 0.0 then count.number.Floor else 0
  }

  lemma WholeTokens(count: Count, fallback: nat)
    ensures Tokens(count, fallback) == if count.Value? then Whole(count) else fallback
  {
  }

  /** An entry without usage counts as one run without usage and nothing else. */
  lemma CountsWithoutUsage(e: Entry)
    requires e.usage.None? || e.usage.value == Usage(Absent, Absent, Absent)
             || (!e.usage.value.total.Value? && !e.usage.value.input.Value? && e.usage.value.output.Absent?)
    ensures var c := Contribution(e);
            c.runs == 1 && c.missingUsageRuns == 1 && c.inputTokens == 0 && c.outputTokens == 0 && c.totalTokens == 0
  {
  }

  /** Any other counts its input, its output, and the total it names, or else the two together. */
  lemma CountsWithUsage(e: Entry)
    requires e.usage.Some?
    requires e.usage.value.total.Value? || e.usage.value.input.Value? || !e.usage.value.output.Absent?
    ensures var c, usage := Contribution(e), e.usage.value;
            && c.runs == 1 && c.missingUsageRuns == 0
            && c.inputTokens == Whole(usage.input) && c.outputTokens == Whole(usage.output)
            && c.totalTokens ==
               if usage.total.Value? then Whole(usage.total) else Whole(usage.input) + Whole(usage.output)
  {
    WholeTokens(e.usage.value.input, 0);
    WholeTokens(e.usage.value.output, 0);
    WholeTokens(e.usage.value.total, Whole(e.usage.value.input) + Whole(e.usage.value.output));
  }

  lemma TwoEntries(ts: real, model: Option<string>)
    ensures Contribution(Entry(ts, "j", model, Some(Usage(Value(10.9), Value(5.0), Absent)))) == Sums(1, 0, 10, 5, 15)
    ensures Contribution(Entry(ts, "j", model, Some(Usage(Absent, Value(-2.5), Value(7.5))))) == Sums(1, 0, 0, 0, 7)
  {
  }

  /** Jobs, and the models of a job, come by descending numbers of total tokens. */
  lemma RanksByTotalTokens(totals: map<string, JobAgg>, listing: Listing, i: nat, k: nat)
    requires Lists(totals, listing) && i < k
    ensures var report := Report(totals, listing);
            && (k < |report| ==> report[i].sums.totalTokens >= report[k].sums.totalTokens)
            && forall row | row in report && k < |row.models| ::
                 row.models[i].sums.totalTokens >= row.models[k].sums.totalTokens
  {
    var report := Report(totals, listing);
    ReportIsRanked(totals, listing);
    assert k < |report| ==> JobTotal(report[i]) >= JobTotal(report[k]);
    forall row | row in report && k < |row.models|
      ensures row.models[i].sums.totalTokens >= row.models[k].sums.totalTokens
    {
      RowIsRanked(totals, listing, row.jobId);
      assert ModelTotal(row.models[i]) >= ModelTotal(row.models[k]);
    }
  }
}
