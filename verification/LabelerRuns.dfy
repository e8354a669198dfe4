/** Sequences of labeller runs, each fed by the batch generator and cut off at an arbitrary point. */
module LabelerRuns {
  import opened Base
  import opened IssueBatches
  import opened LabelerJob

  /** What one run sees, and after how many outside actions it is cut off. */
  datatype RunInput = RunInput(issuePages: seq<Page>, pullRequestPages: seq<Page>, limit: Limit, cut: nat)

  function ItemNumbers(items: seq<LabelItem>): (r: seq<int>)
    ensures |r| == |items| && forall i | 0 <= i < |items| :: r[i] == items[i].number
  {
    seq(|items|, i requires 0 <= i < |items| => items[i].number)
  }

  function BatchNumbers(batches: seq<Batch>): (r: seq<seq<int>>)
    ensures |r| == |batches| && forall i | 0 <= i < |batches| :: r[i] == ItemNumbers(batches[i].items)
  {
    seq(|batches|, i requires 0 <= i < |batches| => ItemNumbers(batches[i].items))
  }

  function RunPlan(run: RunInput): seq<WorkBatch> {
    Plan(BatchNumbers(BatchesOf(Fetched(run.issuePages, run.limit), 1, 0)),
         BatchNumbers(BatchesOf(Fetched(run.pullRequestPages, run.limit), 1, 0)))
  }

  function Intended(file: Option<StateFile>, run: RunInput): seq<Action> {
    PlanActions(LoadState(file), RunPlan(run))
  }

  function Cut(actions: seq<Action>, cut: nat): seq<Action> {
    if cut < |actions| then actions[..cut] else actions
  }

  function Performed(file: Option<StateFile>, run: RunInput): seq<Action> {
    Cut(Intended(file, run), run.cut)
  }

  /** The state file after a sequence of runs. */
  function FileAfterRuns(file: Option<StateFile>, runs: seq<RunInput>): Option<StateFile> {
    if runs == [] then file
    else
      var before := FileAfterRuns(file, runs[..|runs| - 1]);
      FileAfter(before, Performed(before, runs[|runs| - 1]))
  }

  // ---------------------------------------------------------------- one run

  lemma RunPlanSizes(run: RunInput, i: nat)
    requires i < |RunPlan(run)|
    ensures |RunPlan(run)[i].numbers| <= WORK_BATCH_SIZE
  {
    var issues := BatchesOf(Fetched(run.issuePages, run.limit), 1, 0);
    var pullRequests := BatchesOf(Fetched(run.pullRequestPages, run.limit), 1, 0);
    if i < |issues| {
      BatchShape(Fetched(run.issuePages, run.limit), 1, 0, i);
    } else {
      BatchShape(Fetched(run.pullRequestPages, run.limit), 1, 0, i - |issues|);
    }
  }

  /**
   * A run cut off anywhere keeps what was saved, saves only what was processed, and leaves unsaved
   * only items of the batch it was cut in: at most 500 of them.
   */
  lemma CutRunIsSafe(file: Option<StateFile>, run: RunInput) returns (current: nat)
    ensures var performed := Performed(file, run);
            var after := FileAfter(file, performed);
            && Safe(LoadState(file), after, performed, BatchAt(RunPlan(run), current))
            && Unsaved(performed, after) <= WORK_BATCH_SIZE
  {
    var intended := Intended(file, run);
    var k := if run.cut < |intended| then run.cut else |intended|;
    assert Performed(file, run) == intended[..k];
    current := CutRun(file, RunPlan(run), k);
    if current < |RunPlan(run)| {
      RunPlanSizes(run, current);
    }
  }

  /** The file after a batch that runs to its end. */
  function AfterOne(file: Option<StateFile>, batch: WorkBatch): Option<StateFile> {
    FileAfter(file, BatchActions(LoadState(file), batch))
  }

  /** The file after a plan that runs to its end, batch by batch. */
  function AfterPlan(file: Option<StateFile>, plan: seq<WorkBatch>): Option<StateFile>
    decreases |plan|
  {
    if plan == [] then file else AfterPlan(AfterOne(file, plan[0]), plan[1..])
  }

  lemma {:induction false} PlanLeadsThere(file: Option<StateFile>, plan: seq<WorkBatch>)
    ensures FileAfter(file, PlanActions(LoadState(file), plan)) == AfterPlan(file, plan)
    decreases |plan|
  {
    if plan != [] {
      var next := AfterOne(file, plan[0]);
      BatchCompletes(file, plan[0]);
      FileAfterConcat(file, BatchActions(LoadState(file), plan[0]), PlanActions(LoadState(next), plan[1..]));
      PlanLeadsThere(next, plan[1..]);
    }
  }

  /** The file holds the number. */
  predicate Saved(file: Option<StateFile>, kind: Kind, n: int) {
    n in Numbers(LoadState(file), kind)
  }

  lemma BatchSaves(file: Option<StateFile>, batch: WorkBatch, kind: Kind, n: int)
    requires Saved(file, kind, n) || (kind == batch.kind && n in batch.numbers)
    ensures Saved(AfterOne(file, batch), kind, n)
  {
    BatchCompletes(file, batch);
  }

  lemma {:induction false} PlanKeepsSaved(file: Option<StateFile>, plan: seq<WorkBatch>, kind: Kind, n: int)
    requires Saved(file, kind, n)
    ensures Saved(AfterPlan(file, plan), kind, n)
    decreases |plan|
  {
    if plan != [] {
      BatchSaves(file, plan[0], kind, n);
      PlanKeepsSaved(AfterOne(file, plan[0]), plan[1..], kind, n);
    }
  }

  lemma {:induction false} PlanSaves(file: Option<StateFile>, plan: seq<WorkBatch>, i: nat, n: int)
    requires i < |plan| && n in plan[i].numbers
    ensures Saved(AfterPlan(file, plan), plan[i].kind, n)
    decreases |plan|
  {
    if i == 0 {
      BatchSaves(file, plan[0], plan[0].kind, n);
      PlanKeepsSaved(AfterOne(file, plan[0]), plan[1..], plan[0].kind, n);
    } else {
      PlanSaves(AfterOne(file, plan[0]), plan[1..], i - 1, n);
    }
  }

  /** A plan that runs to its end saves every number of every batch. */
  lemma PlanCompletes(file: Option<StateFile>, plan: seq<WorkBatch>, i: nat, n: int)
    requires i < |plan| && n in plan[i].numbers
    ensures n in Numbers(LoadState(FileAfter(file, PlanActions(LoadState(file), plan))), plan[i].kind)
  {
    PlanLeadsThere(file, plan);
    PlanSaves(file, plan, i, n);
  }

  lemma {:induction false} BatchHolding(items: seq<LabelItem>, index: nat, before: nat, item: LabelItem)
    returns (i: nat)
    requires item in items
    ensures i < |BatchesOf(items, index, before)| && item in BatchesOf(items, index, before)[i].items
    decreases |items|
  {
    var n := if |items| < WORK_BATCH_SIZE then |items| else WORK_BATCH_SIZE;
    if item in items[..n] {
      return 0;
    }
    var rest := BatchHolding(items[n..], index + 1, before + n, item);
    return rest + 1;
  }

  lemma FetchedIsBatched(items: seq<LabelItem>, item: LabelItem) returns (i: nat)
    requires item in items
    ensures i < |BatchNumbers(BatchesOf(items, 1, 0))| && item.number in BatchNumbers(BatchesOf(items, 1, 0))[i]
  {
    i := BatchHolding(items, 1, 0, item);
    var batch := BatchesOf(items, 1, 0)[i].items;
    var j :| 0 <= j < |batch| && batch[j] == item;
    assert ItemNumbers(batch)[j] == item.number;
  }

  lemma UncutPlan(file: Option<StateFile>, run: RunInput)
    requires run.cut >= |Intended(file, run)|
    ensures Performed(file, run) == PlanActions(LoadState(file), RunPlan(run))
  {
  }

  /** A run that is not cut off leaves the number of every issue it fetched in the state file. */
  lemma UncutRunSavesIssues(file: Option<StateFile>, run: RunInput, item: LabelItem)
    requires run.cut >= |Intended(file, run)| && item in Fetched(run.issuePages, run.limit)
    ensures item.number in Numbers(LoadState(FileAfter(file, Performed(file, run))), Issue)
  {
    UncutPlan(file, run);
    var i := FetchedIsBatched(Fetched(run.issuePages, run.limit), item);
    PlanCompletes(file, RunPlan(run), i, item.number);
  }

  /** And the number of every pull request. */
  lemma UncutRunSavesPullRequests(file: Option<StateFile>, run: RunInput, item: LabelItem)
    requires run.cut >= |Intended(file, run)| && item in Fetched(run.pullRequestPages, run.limit)
    ensures item.number in Numbers(LoadState(FileAfter(file, Performed(file, run))), PullRequest)
  {
    UncutPlan(file, run);
    var i := FetchedIsBatched(Fetched(run.pullRequestPages, run.limit), item);
    var at := |BatchesOf(Fetched(run.issuePages, run.limit), 1, 0)| + i;
    assert at < |RunPlan(run)| && RunPlan(run)[at].kind == PullRequest && item.number in RunPlan(run)[at].numbers;
    PlanCompletes(file, RunPlan(run), at, item.number);
  }

  /** A run never touches an item whose number was in the file when it started. */
  lemma {:induction false} SavedItemsAreSkipped(done: Done, plan: seq<WorkBatch>, kind: Kind, n: int)
    requires n in Numbers(done, kind)
    ensures Process(kind, n) !in PlanActions(done, plan)
    decreases |plan|
  {
    if plan != [] {
      SavedItemsAreSkipped(AfterBatch(done, plan[0]), plan[1..], kind, n);
      assert Process(kind, n) !in BatchActions(done, plan[0]);
    }
  }

  // ---------------------------------------------------------------- many runs

  lemma {:induction false} SavedOnlyGrows(file: Option<StateFile>, runs: seq<RunInput>, i: nat)
    requires i <= |runs|
    ensures Covers(LoadState(FileAfterRuns(file, runs)), LoadState(FileAfterRuns(file, runs[..i])))
    decreases |runs|
  {
    if i == |runs| {
      assert runs[..i] == runs;
    } else {
      var init := runs[..|runs| - 1];
      SavedOnlyGrows(file, init, i);
      assert init[..i] == runs[..i];
      var _ := CutRunIsSafe(FileAfterRuns(file, init), runs[|runs| - 1]);
    }
  }

  /** Run number `r` of the sequence processed the item. */
  predicate Processed(file: Option<StateFile>, runs: seq<RunInput>, r: nat, kind: Kind, n: int)
    requires r < |runs|
  {
    Process(kind, n) in Performed(FileAfterRuns(file, runs[..r]), runs[r])
  }

  /** What one more run changes: nothing saved is lost, and only what it processed is added. */
  lemma OneMoreRun(file: Option<StateFile>, runs: seq<RunInput>, r: nat, kind: Kind, n: int)
    requires r < |runs|
    ensures var before, after := FileAfterRuns(file, runs[..r]), FileAfterRuns(file, runs[..r + 1]);
            && after == FileAfter(before, Performed(before, runs[r]))
            && (Saved(after, kind, n) ==> Saved(before, kind, n) || Processed(file, runs, r, kind, n))
            && (Saved(before, kind, n) ==> Saved(after, kind, n) && !Processed(file, runs, r, kind, n))
  {
    var before := FileAfterRuns(file, runs[..r]);
    assert runs[..r + 1][..r] == runs[..r];
    var _ := CutRunIsSafe(before, runs[r]);
    if Saved(before, kind, n) {
      SavedItemsAreSkipped(LoadState(before), RunPlan(runs[r]), kind, n);
    }
  }

  lemma OneMoreRunSaves(file: Option<StateFile>, runs: seq<RunInput>, r: nat, kind: Kind, n: int)
    requires r < |runs|
    ensures Saved(FileAfterRuns(file, runs[..r]), kind, n) ==> Saved(FileAfterRuns(file, runs[..r + 1]), kind, n)
    ensures Saved(FileAfterRuns(file, runs[..r + 1]), kind, n) ==>
              Saved(FileAfterRuns(file, runs[..r]), kind, n) || Processed(file, runs, r, kind, n)
  {
    OneMoreRun(file, runs, r, kind, n);
  }

  lemma {:induction false} FirstTime(holds: nat -> bool, m: nat) returns (r: nat)
    requires !holds(0) && holds(m)
    ensures r < m && !holds(r) && holds(r + 1)
  {
    if holds(m - 1) {
      r := FirstTime(holds, m - 1);
    } else {
      r := m - 1;
    }
  }

  /** The number is in the file after the first `m` runs. */
  predicate SavedAfter(file: Option<StateFile>, runs: seq<RunInput>, m: nat, kind: Kind, n: int) {
    m <= |runs| && Saved(FileAfterRuns(file, runs[..m]), kind, n)
  }

  lemma NewlySaved(file: Option<StateFile>, runs: seq<RunInput>, r: nat, kind: Kind, n: int)
    requires !SavedAfter(file, runs, r, kind, n) && SavedAfter(file, runs, r + 1, kind, n)
    ensures r < |runs| && Processed(file, runs, r, kind, n)
  {
    OneMoreRunSaves(file, runs, r, kind, n);
  }

  lemma SavedAtStart(file: Option<StateFile>, runs: seq<RunInput>, kind: Kind, n: int)
    ensures SavedAfter(file, runs, 0, kind, n) <==> Saved(file, kind, n)
  {
  }

  /** Every saved number was in the first file or was processed by some run. */
  lemma SavedWasProcessed(file: Option<StateFile>, runs: seq<RunInput>, m: nat, kind: Kind, n: int)
    returns (r: nat)
    requires SavedAfter(file, runs, m, kind, n) && !Saved(file, kind, n)
    ensures r < m <= |runs| && Processed(file, runs, r, kind, n)
  {
    SavedAtStart(file, runs, kind, n);
    r := FirstTime((k: nat) => SavedAfter(file, runs, k, kind, n), m);
    NewlySaved(file, runs, r, kind, n);
  }

  lemma CoversSaved(big: Option<StateFile>, small: Option<StateFile>, kind: Kind, n: int)
    requires Covers(LoadState(big), LoadState(small)) && Saved(small, kind, n)
    ensures Saved(big, kind, n)
  {
  }

  lemma StaysSaved(file: Option<StateFile>, runs: seq<RunInput>, i: nat, j: nat, kind: Kind, n: int)
    requires i <= j <= |runs| && Saved(FileAfterRuns(file, runs[..i]), kind, n)
    ensures Saved(FileAfterRuns(file, runs[..j]), kind, n)
  {
    assert runs[..j][..i] == runs[..i];
    SavedOnlyGrows(file, runs[..j], i);
    CoversSaved(FileAfterRuns(file, runs[..j]), FileAfterRuns(file, runs[..i]), kind, n);
  }

  /** The item belongs to batch number `current` of the run, a batch of at most 500 items. */
  predicate InBatch(run: RunInput, current: nat, kind: Kind, n: int) {
    && current < |RunPlan(run)| && RunPlan(run)[current].kind == kind && n in RunPlan(run)[current].numbers
    && |RunPlan(run)[current].numbers| <= WORK_BATCH_SIZE
  }

  /** Everything a run processes and leaves unsaved belongs to one batch, the one it was cut off in. */
  lemma UnsavedIsInCutBatch(file: Option<StateFile>, run: RunInput) returns (current: nat)
    ensures forall kind, n | Process(kind, n) in Performed(file, run)
                             && !Saved(FileAfter(file, Performed(file, run)), kind, n) ::
              InBatch(run, current, kind, n)
  {
    current := CutRunIsSafe(file, run);
    if current < |RunPlan(run)| {
      RunPlanSizes(run, current);
    }
    forall kind, n | Process(kind, n) in Performed(file, run)
                     && !Saved(FileAfter(file, Performed(file, run)), kind, n)
      ensures InBatch(run, current, kind, n)
    {
      assert !IsSaved(FileAfter(file, Performed(file, run)), Process(kind, n));
    }
  }

  /** An item that two runs process was left unsaved by the first of them. */
  lemma RepeatWasUnsaved(file: Option<StateFile>, runs: seq<RunInput>, i: nat, j: nat, kind: Kind, n: int)
    requires i < j < |runs| && Processed(file, runs, i, kind, n) && Processed(file, runs, j, kind, n)
    ensures var before := FileAfterRuns(file, runs[..i]);
            !Saved(FileAfter(before, Performed(before, runs[i])), kind, n)
  {
    OneMoreRun(file, runs, i, kind, n);
    OneMoreRun(file, runs, j, kind, n);
    if Saved(FileAfterRuns(file, runs[..i + 1]), kind, n) {
      StaysSaved(file, runs, i + 1, j, kind, n);
    }
  }

  /**
   * All the items of a run that later runs process again belong to one batch, of at most 500 items:
   * the one in which the run was cut off, leaving them unsaved.
   */
  lemma RepeatsComeFromTheCutBatch(file: Option<StateFile>, runs: seq<RunInput>, i: nat) returns (current: nat)
    requires i < |runs|
    ensures forall j, kind, n | i < j < |runs| && Processed(file, runs, i, kind, n)
                                && Processed(file, runs, j, kind, n) ::
              InBatch(runs[i], current, kind, n)
  {
    var before := FileAfterRuns(file, runs[..i]);
    current := UnsavedIsInCutBatch(before, runs[i]);
    forall j, kind, n | i < j < |runs| && Processed(file, runs, i, kind, n) && Processed(file, runs, j, kind, n)
      ensures InBatch(runs[i], current, kind, n)
    {
      RepeatWasUnsaved(file, runs, i, j, kind, n);
    }
  }

  // ---------------------------------------------------------------- the run itself

  lemma PendingNext(done: Done, kind: Kind, pending: seq<int>, i: nat)
    requires i < |pending|
    ensures ProcessAll(kind, pending[..i + 1]) == ProcessAll(kind, pending[..i]) + [Process(kind, pending[i])]
    ensures AddNumbers(AddNumbers(done, kind, Elements(pending[..i])), kind, {pending[i]}) ==
            AddNumbers(done, kind, Elements(pending[..i + 1]))
  {
  }

  lemma NothingPending(done: Done, kind: Kind, pending: seq<int>)
    ensures ProcessAll(kind, pending[..0]) == [] && pending[..|pending|] == pending
    ensures AddNumbers(done, kind, Elements(pending[..0])) == done
  {
    assert Elements(pending[..0]) == {};
  }

  /** The actions so far, completed by those of the batches from number `i` on. */
  function Completed(soFar: seq<Action>, done: Done, plan: seq<WorkBatch>, i: nat): seq<Action>
    requires i <= |plan|
  {
    soFar + PlanActions(done, plan[i..])
  }

  lemma PlanUnrolled(soFar: seq<Action>, done: Done, plan: seq<WorkBatch>, i: nat)
    requires i < |plan|
    ensures Completed(soFar + BatchActions(done, plan[i]), AfterBatch(done, plan[i]), plan, i + 1) ==
            Completed(soFar, done, plan, i)
  {
  }

  lemma PlanEnds(soFar: seq<Action>, done: Done, plan: seq<WorkBatch>)
    ensures Completed(soFar, done, plan, |plan|) == soFar
    ensures Completed([], done, plan, 0) == PlanActions(done, plan)
  {
  }

  /** One more action happens exactly when the cut lies behind it, and only a checkpoint changes the file. */
  lemma OneMoreAction(start: Option<StateFile>, intended: seq<Action>, a: Action, cut: nat)
    ensures Cut(intended + [a], cut) ==
            if |Cut(intended, cut)| < cut then Cut(intended, cut) + [a] else Cut(intended, cut)
    ensures FileAfter(start, Cut(intended, cut) + [a]) ==
            if a.Checkpoint? then Some(Written(a.state)) else FileAfter(start, Cut(intended, cut))
  {
    var performed := Cut(intended, cut);
    assert (performed + [a])[..|performed|] == performed;
  }

  /** The state of `main`: the working sets, the file, and the outside actions that happened before the cut. */
  class Labeler {
    var issueState: set<int>
    var pullRequestState: set<int>
    var file: Option<StateFile>
    var performed: seq<Action>
    ghost var intended: seq<Action>
    ghost const start: Option<StateFile>
    const cut: nat

    function Working(): Done
      reads this
    {
      Done(issueState, pullRequestState)
    }

    ghost predicate Valid()
      reads this
    {
      performed == Cut(intended, cut) && file == FileAfter(start, performed)
    }

    constructor (file: Option<StateFile>, cut: nat)
      ensures Valid() && intended == [] && start == file && this.cut == cut && Working() == LoadState(file)
    {
      var loaded := LoadState(file);
      this.file, this.cut, this.start := file, cut, file;
      issueState, pullRequestState := loaded.issues, loaded.pullRequests;
      performed, intended := [], [];
    }

    /** Performs one outside action, unless the run has been cut off. */
    method Perform(a: Action)
      requires Valid()
      modifies this`file, this`performed, this`intended
      ensures Valid() && intended == old(intended) + [a] && Working() == old(Working())
    {
      OneMoreAction(start, intended, a, cut);
      if |performed| < cut {
        performed := performed + [a];
        if a.Checkpoint? {
          file := Some(Written(a.state));
        }
      }
      intended := intended + [a];
    }

    method Remember(kind: Kind, number: int)
      requires Valid()
      modifies this`issueState, this`pullRequestState
      ensures Valid() && Working() == AddNumbers(old(Working()), kind, {number})
    {
      if kind == Issue {
        issueState := issueState + {number};
      } else {
        pullRequestState := pullRequestState + {number};
      }
    }

    method ProcessPending(kind: Kind, pending: seq<int>)
      requires Valid()
      modifies this
      ensures Valid() && intended == old(intended) + ProcessAll(kind, pending)
      ensures Working() == AddNumbers(old(Working()), kind, Elements(pending))
    {
      ghost var before, done := intended, Working();
      NothingPending(done, kind, pending);
      for i := 0 to |pending|
        invariant Valid() && intended == before + ProcessAll(kind, pending[..i])
        invariant Working() == AddNumbers(done, kind, Elements(pending[..i]))
      {
        PendingNext(done, kind, pending, i);
        Perform(Process(kind, pending[i]));
        Remember(kind, pending[i]);
      }
    }

    /** One work batch: filter, process one by one, checkpoint. */
    method RunBatch(batch: WorkBatch)
      requires Valid()
      modifies this
      ensures Valid() && intended == old(intended) + BatchActions(old(Working()), batch)
      ensures Working() == AfterBatch(old(Working()), batch)
    {
      var pending := Pending(batch.numbers, Numbers(Working(), batch.kind));
      ProcessPending(batch.kind, pending);
      if |pending| > 0 {
        Perform(Checkpoint(BuildStateSnapshot(Working())));
      }
    }

    /** The loops of `main` over the issue batches and then the pull-request batches. */
    method RunAll(plan: seq<WorkBatch>)
      requires Valid() && intended == []
      modifies this
      ensures Valid() && intended == PlanActions(old(Working()), plan)
    {
      ghost var done := Working();
      PlanEnds([], done, plan);
      for i := 0 to |plan|
        invariant Valid() && Completed(intended, Working(), plan, i) == PlanActions(done, plan)
      {
        PlanUnrolled(intended, Working(), plan, i);
        RunBatch(plan[i]);
      }
      PlanEnds(intended, Working(), plan);
    }
  }

  /** One run of the script on what the API returns. */
  method LabelOpenItems(file: Option<StateFile>, run: RunInput)
    returns (after: Option<StateFile>, performed: seq<Action>)
    requires Suffices(run.issuePages, run.limit) && Suffices(run.pullRequestPages, run.limit)
    ensures performed == Performed(file, run)
    ensures after == FileAfter(file, performed)
  {
    var issues := FetchOpenLabelItemBatches(run.issuePages, run.limit);
    var pullRequests := FetchOpenLabelItemBatches(run.pullRequestPages, run.limit);
    var labeler := new Labeler(file, run.cut);
    labeler.RunAll(Plan(BatchNumbers(issues), BatchNumbers(pullRequests)));
    return labeler.file, labeler.performed;
  }

  /** A cut run performs the first actions it intended, up to the cut. */
  lemma CutIsFront(actions: seq<Action>, cut: nat)
    ensures Cut(actions, cut) <= actions && |Cut(actions, cut)| == if cut < |actions| then cut else |actions|
  {
    assert actions[..|actions|] == actions;
  }

  /** A run does its issues first, and its pull requests after them. */
  lemma IssuesComeFirst(run: RunInput, i: nat, j: nat)
    requires i < j < |RunPlan(run)| && RunPlan(run)[i].kind == PullRequest
    ensures RunPlan(run)[j].kind == PullRequest
  {
  }
}
