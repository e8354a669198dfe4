/** The checkpointed labelling job of scripts/label-open-issues.ts, cut off at any point and started again. */
module LabelerJob {
  import opened Base

  const STATE_VERSION := 1

  datatype Kind = Issue | PullRequest

  datatype ScriptState = ScriptState(version: int, issues: seq<int>, pullRequests: seq<int>)

  /** The sets `main` works on. */
  datatype Done = Done(issues: set<int>, pullRequests: set<int>)

  function Numbers(done: Done, kind: Kind): set<int> {
    if kind == Issue then done.issues else done.pullRequests
  }

  function AddNumbers(done: Done, kind: Kind, ns: set<int>): Done {
    if kind == Issue then done.(issues := done.issues + ns) else done.(pullRequests := done.pullRequests + ns)
  }

  predicate Covers(big: Done, small: Done) {
    small.issues <= big.issues && small.pullRequests <= big.pullRequests
  }

  // ---------------------------------------------------------------- the state file

  /** An element of a list in the file: a number, or anything that is none. */
  datatype Value = Number(n: int) | Other

  /** The file as parsed: the two lists, where they are lists. */
  datatype StateFile = StateFile(issues: Option<seq<Value>>, pullRequests: Option<seq<Value>>)

  function BuildStateSnapshot(done: Done): ScriptState {
    ScriptState(STATE_VERSION, Sorted(done.issues), Sorted(done.pullRequests))
  }

  function Values(numbers: seq<int>): (r: seq<Value>)
    ensures |r| == |numbers| && forall i | 0 <= i < |r| :: r[i] == Number(numbers[i])
  {
    seq(|numbers|, i requires 0 <= i < |numbers| => Number(numbers[i]))
  }

  /** `saveState`. */
  function Written(state: ScriptState): StateFile {
    StateFile(Some(Values(state.issues)), Some(Values(state.pullRequests)))
  }

  /** What is no number is filtered out, and what is no list is empty. */
  function NumbersIn(list: Option<seq<Value>>): set<int> {
    if list.None? then {} else set v | v in list.value && v.Number? :: v.n
  }

  /** `loadState`: no file starts fresh; repeated numbers collapse. */
  function LoadState(file: Option<StateFile>): Done {
    if file.None? then Done({}, {}) else Done(NumbersIn(file.value.issues), NumbersIn(file.value.pullRequests))
  }

  ghost predicate Ascends(numbers: seq<int>) {
    forall i, j | 0 <= i < j < |numbers| :: numbers[i] < numbers[j]
  }

  lemma NumbersInValues(numbers: seq<int>)
    ensures NumbersIn(Some(Values(numbers))) == Elements(numbers)
  {
    var values := Values(numbers);
    forall n | n in Elements(numbers) ensures n in NumbersIn(Some(values)) {
      var i :| 0 <= i < |numbers| && numbers[i] == n;
      assert values[i] in values;
    }
  }

  /** A saved snapshot is sorted and loads as the sets it was made from. */
  lemma SnapshotRoundTrip(done: Done)
    ensures LoadState(Some(Written(BuildStateSnapshot(done)))) == done
    ensures Ascends(BuildStateSnapshot(done).issues) && Ascends(BuildStateSnapshot(done).pullRequests)
  {
    NumbersInValues(Sorted(done.issues));
    NumbersInValues(Sorted(done.pullRequests));
  }

  // ---------------------------------------------------------------- one run

  /** What a run does to the outside world: it labels an item, or it overwrites the state file. */
  datatype Action = Process(kind: Kind, number: int) | Checkpoint(state: ScriptState)

  /** A work batch: the numbers of its items, in order. */
  datatype WorkBatch = WorkBatch(kind: Kind, numbers: seq<int>)

  function Pending(numbers: seq<int>, known: set<int>): (r: seq<int>)
    ensures |r| <= |numbers|
    ensures forall n :: n in r <==> n in numbers && n !in known
  {
    if numbers == [] then []
    else
      var init := Pending(numbers[..|numbers| - 1], known);
      var last := numbers[|numbers| - 1];
      assert numbers == numbers[..|numbers| - 1] + [last];
      if last in known then init else init + [last]
  }

  function ProcessAll(kind: Kind, numbers: seq<int>): (r: seq<Action>)
    ensures |r| == |numbers|
    ensures forall i | 0 <= i < |r| :: r[i] == Process(kind, numbers[i])
  {
    if numbers == [] then []
    else ProcessAll(kind, numbers[..|numbers| - 1]) + [Process(kind, numbers[|numbers| - 1])]
  }

  function AfterBatch(done: Done, batch: WorkBatch): Done {
    AddNumbers(done, batch.kind, Elements(Pending(batch.numbers, Numbers(done, batch.kind))))
  }

  /** The pending items one by one, then a checkpoint unless nothing was pending. */
  function BatchActions(done: Done, batch: WorkBatch): seq<Action> {
    var pending := Pending(batch.numbers, Numbers(done, batch.kind));
    ProcessAll(batch.kind, pending) +
    if pending == [] then [] else [Checkpoint(BuildStateSnapshot(AfterBatch(done, batch)))]
  }

  /** All issue batches, then all pull-request batches. */
  function Plan(issues: seq<seq<int>>, pullRequests: seq<seq<int>>): (r: seq<WorkBatch>)
    ensures |r| == |issues| + |pullRequests|
  {
    seq(|issues|, i requires 0 <= i < |issues| => WorkBatch(Issue, issues[i])) +
    seq(|pullRequests|, i requires 0 <= i < |pullRequests| => WorkBatch(PullRequest, pullRequests[i]))
  }

  function PlanActions(done: Done, plan: seq<WorkBatch>): seq<Action>
    decreases |plan|
  {
    if plan == [] then []
    else BatchActions(done, plan[0]) + PlanActions(AfterBatch(done, plan[0]), plan[1..])
  }

  function FileAfter(file: Option<StateFile>, actions: seq<Action>): Option<StateFile> {
    if actions == [] then file
    else
      var last := actions[|actions| - 1];
      if last.Checkpoint? then Some(Written(last.state)) else FileAfter(file, actions[..|actions| - 1])
  }

  lemma {:induction false} FileAfterConcat(file: Option<StateFile>, a: seq<Action>, b: seq<Action>)
    ensures FileAfter(file, a + b) == FileAfter(FileAfter(file, a), b)
  {
    if b == [] {
      assert a + b == a;
    } else {
      assert (a + b)[..|a + b| - 1] == a + b[..|b| - 1];
      FileAfterConcat(file, a, b[..|b| - 1]);
    }
  }

  lemma {:induction false} ProcessingKeepsFile(file: Option<StateFile>, kind: Kind, numbers: seq<int>, k: nat)
    requires k <= |numbers|
    ensures FileAfter(file, ProcessAll(kind, numbers)[..k]) == file
  {
    if k > 0 {
      ProcessingKeepsFile(file, kind, numbers, k - 1);
      assert ProcessAll(kind, numbers)[..k][..k - 1] == ProcessAll(kind, numbers)[..k - 1];
    }
  }

  predicate IsSaved(file: Option<StateFile>, a: Action) {
    a.Process? ==> a.number in Numbers(LoadState(file), a.kind)
  }

  /** How many of the actions labelled an item that the file does not record. */
  function Unsaved(actions: seq<Action>, file: Option<StateFile>): (r: nat)
    ensures r <= |actions|
  {
    if actions == [] then 0
    else Unsaved(actions[..|actions| - 1], file) + if IsSaved(file, actions[|actions| - 1]) then 0 else 1
  }

  lemma {:induction false} UnsavedConcat(a: seq<Action>, b: seq<Action>, file: Option<StateFile>)
    ensures Unsaved(a + b, file) == Unsaved(a, file) + Unsaved(b, file)
  {
    if b == [] {
      assert a + b == a;
    } else {
      assert (a + b)[..|a + b| - 1] == a + b[..|b| - 1];
      UnsavedConcat(a, b[..|b| - 1], file);
    }
  }

  lemma {:induction false} AllSaved(actions: seq<Action>, file: Option<StateFile>)
    requires forall a | a in actions :: IsSaved(file, a)
    ensures Unsaved(actions, file) == 0
  {
    if actions != [] {
      AllSaved(actions[..|actions| - 1], file);
    }
  }

  /** A batch that runs to its end leaves the file in step with the working sets, holding every one of its items. */
  lemma BatchCompletes(file: Option<StateFile>, batch: WorkBatch)
    ensures var done := LoadState(file);
            var after := FileAfter(file, BatchActions(done, batch));
            && LoadState(after) == AfterBatch(done, batch)
            && Covers(LoadState(after), done)
            && (forall n | n in batch.numbers :: n in Numbers(LoadState(after), batch.kind))
            && (forall a | a in BatchActions(done, batch) :: IsSaved(after, a))
  {
    BatchReachesFile(file, batch);
    BatchIsCovered(LoadState(file), batch);
  }

  /** After a batch the file is in step with the working sets. */
  lemma BatchReachesFile(file: Option<StateFile>, batch: WorkBatch)
    ensures var done := LoadState(file);
            LoadState(FileAfter(file, BatchActions(done, batch))) == AfterBatch(done, batch)
  {
    var done := LoadState(file);
    var pending := Pending(batch.numbers, Numbers(done, batch.kind));
    var processes := ProcessAll(batch.kind, pending);
    if pending == [] {
      assert processes == [] && BatchActions(done, batch) == [];
      assert Elements(pending) == {};
    } else {
      var snapshot := BuildStateSnapshot(AfterBatch(done, batch));
      SnapshotRoundTrip(AfterBatch(done, batch));
      FileAfterConcat(file, processes, [Checkpoint(snapshot)]);
    }
  }

  /** And the working sets hold all of the batch. */
  lemma BatchIsCovered(done: Done, batch: WorkBatch)
    ensures Covers(AfterBatch(done, batch), done)
    ensures forall n | n in batch.numbers :: n in Numbers(AfterBatch(done, batch), batch.kind)
    ensures forall a | a in BatchActions(done, batch) && a.Process? ::
              a.number in Numbers(AfterBatch(done, batch), a.kind)
  {
  }

  // ---------------------------------------------------------------- a run cut off after `k` actions

  /**
   * Safe after a cut: nothing saved before is lost, only processed numbers are saved, and what is
   * processed but unsaved belongs to one batch, the one that was cut.
   */
  ghost predicate Safe(before: Done, after: Option<StateFile>, performed: seq<Action>, cut: Option<WorkBatch>) {
    && Covers(LoadState(after), before)
    && (forall kind, n | n in Numbers(LoadState(after), kind) ::
          n in Numbers(before, kind) || Process(kind, n) in performed)
    && (forall a | a in performed && !IsSaved(after, a) ::
          cut.Some? && a.kind == cut.value.kind && a.number in cut.value.numbers)
    && Unsaved(performed, after) <= if cut.Some? then |cut.value.numbers| else 0
  }

  function BatchAt(plan: seq<WorkBatch>, i: nat): Option<WorkBatch> {
    if i < |plan| then Some(plan[i]) else None
  }

  /** The guarantees of a cut run; `current` is the batch it was cut in. */
  ghost predicate CutSafely(file: Option<StateFile>, plan: seq<WorkBatch>, k: nat, current: nat)
    requires k <= |PlanActions(LoadState(file), plan)|
  {
    var performed := PlanActions(LoadState(file), plan)[..k];
    Safe(LoadState(file), FileAfter(file, performed), performed, BatchAt(plan, current))
  }

  lemma {:induction false} CutInsideBatch(file: Option<StateFile>, plan: seq<WorkBatch>, k: nat)
    requires plan != [] && k < |BatchActions(LoadState(file), plan[0])|
    ensures k <= |PlanActions(LoadState(file), plan)| && CutSafely(file, plan, k, 0)
  {
    var done := LoadState(file);
    var pending := Pending(plan[0].numbers, Numbers(done, plan[0].kind));
    var processes := ProcessAll(plan[0].kind, pending);
    var performed := PlanActions(done, plan)[..k];
    assert performed == processes[..k];
    ProcessingKeepsFile(file, plan[0].kind, pending, k);
  }

  lemma {:induction false} CutRun(file: Option<StateFile>, plan: seq<WorkBatch>, k: nat) returns (current: nat)
    requires k <= |PlanActions(LoadState(file), plan)|
    ensures CutSafely(file, plan, k, current)
    decreases |plan|, 1
  {
    if plan == [] {
      CutNothing(file);
      current := 0;
    } else if k < |BatchActions(LoadState(file), plan[0])| {
      CutInsideBatch(file, plan, k);
      current := 0;
    } else {
      current := CutBehindBatch(file, plan, k);
    }
  }

  lemma {:induction false} CutBehindBatch(file: Option<StateFile>, plan: seq<WorkBatch>, k: nat) returns (current: nat)
    requires plan != [] && |BatchActions(LoadState(file), plan[0])| <= k <= |PlanActions(LoadState(file), plan)|
    ensures CutSafely(file, plan, k, current)
    decreases |plan|, 0
  {
    var next, left := FirstBatchDone(file, plan, k);
    var rest := CutRun(next, plan[1..], left);
    CutLater(file, plan, k, next, left, rest);
    current := rest + 1;
  }

  lemma CutNothing(file: Option<StateFile>)
    ensures PlanActions(LoadState(file), []) == [] && CutSafely(file, [], 0, 0)
  {
  }

  lemma FirstBatchDone(file: Option<StateFile>, plan: seq<WorkBatch>, k: nat)
    returns (next: Option<StateFile>, left: nat)
    requires plan != [] && |BatchActions(LoadState(file), plan[0])| <= k <= |PlanActions(LoadState(file), plan)|
    ensures && next == FileAfter(file, BatchActions(LoadState(file), plan[0]))
            && LoadState(next) == AfterBatch(LoadState(file), plan[0])
            && |BatchActions(LoadState(file), plan[0])| + left == k
            && left <= |PlanActions(LoadState(next), plan[1..])|
  {
    left := k - |BatchActions(LoadState(file), plan[0])|;
    next := FileAfter(file, BatchActions(LoadState(file), plan[0]));
    BatchCompletes(file, plan[0]);
    SplitPlan(LoadState(file), plan, k);
  }

  /** The actions of a plan cut behind its first batch. */
  lemma SplitPlan(done: Done, plan: seq<WorkBatch>, k: nat)
    requires plan != [] && |BatchActions(done, plan[0])| <= k <= |PlanActions(done, plan)|
    ensures k - |BatchActions(done, plan[0])| <= |PlanActions(AfterBatch(done, plan[0]), plan[1..])|
    ensures PlanActions(done, plan)[..k] ==
            BatchActions(done, plan[0])
            + PlanActions(AfterBatch(done, plan[0]), plan[1..])[..k - |BatchActions(done, plan[0])|]
  {
  }

  /** Saved numbers came from the file or from the actions, in the first batch and in the later ones. */
  lemma SavedFromEither(done: Done, batch: WorkBatch, next: Done, after: Done, first: seq<Action>,
                                           later: seq<Action>)
    requires first == BatchActions(done, batch) && next == AfterBatch(done, batch)
    requires forall kind, n | n in Numbers(after, kind) :: n in Numbers(next, kind) || Process(kind, n) in later
    ensures forall kind, n | n in Numbers(after, kind) :: n in Numbers(done, kind) || Process(kind, n) in first + later
  {
  }

  /** A completed batch has nothing unsaved, now or after later actions. */
  lemma CompletedIsSaved(first: seq<Action>, next: Option<StateFile>, after: Option<StateFile>)
    requires (forall a | a in first :: IsSaved(next, a)) && Covers(LoadState(after), LoadState(next))
    ensures (forall a | a in first :: IsSaved(after, a)) && Unsaved(first, after) == 0
  {
    forall a | a in first ensures IsSaved(after, a) {
      assert IsSaved(next, a);
    }
    AllSaved(first, after);
  }

  /** What is safe after later actions is safe after a completed batch and those actions. */
  lemma SafeLater(done: Done, batch: WorkBatch, next: Option<StateFile>, after: Option<StateFile>,
                                     later: seq<Action>, cut: Option<WorkBatch>)
    requires LoadState(next) == AfterBatch(done, batch) && Covers(LoadState(next), done)
    requires forall a | a in BatchActions(done, batch) :: IsSaved(next, a)
    requires Safe(LoadState(next), after, later, cut)
    ensures Safe(done, after, BatchActions(done, batch) + later, cut)
  {
    var first := BatchActions(done, batch);
    CompletedIsSaved(first, next, after);
    UnsavedConcat(first, later, after);
    SavedFromEither(done, batch, LoadState(next), LoadState(after), first, later);
  }

  lemma {:induction false} CutLater(file: Option<StateFile>, plan: seq<WorkBatch>, k: nat,
                                    next: Option<StateFile>, left: nat, rest: nat)
    requires plan != [] && k <= |PlanActions(LoadState(file), plan)|
    requires next == FileAfter(file, BatchActions(LoadState(file), plan[0]))
    requires LoadState(next) == AfterBatch(LoadState(file), plan[0])
    requires |BatchActions(LoadState(file), plan[0])| + left == k && left <= |PlanActions(LoadState(next), plan[1..])|
    requires CutSafely(next, plan[1..], left, rest)
    ensures CutSafely(file, plan, k, rest + 1)
  {
    var done := LoadState(file);
    var first := BatchActions(done, plan[0]);
    var later := PlanActions(LoadState(next), plan[1..])[..left];
    SplitPlan(done, plan, k);
    FileAfterConcat(file, first, later);
    BatchCompletes(file, plan[0]);
    SafeLater(done, plan[0], next, FileAfter(next, later), later, BatchAt(plan[1..], rest));
    assert BatchAt(plan, rest + 1) == BatchAt(plan[1..], rest);
  }

  // ---------------------------------------------------------------- a batch, told in numbers

  /** The pending items are the batch's items in order, repetitions included, without the known ones. */
  lemma {:induction false} PendingConcat(a: seq<int>, b: seq<int>, known: set<int>)
    ensures Pending(a + b, known) == Pending(a, known) + Pending(b, known)
  {
    if b == [] {
      assert a + b == a;
    } else {
      var init := b[..|b| - 1];
      assert (a + b)[..|a + b| - 1] == a + init;
      PendingConcat(a, init, known);
    }
  }

  lemma PendingOne(n: int, known: set<int>)
    ensures Pending([n], known) == if n in known then [] else [n]
    ensures Pending([], known) == []
  {
  }

  lemma ProcessTwo(kind: Kind, m: int, n: int)
    ensures ProcessAll(kind, [m, n]) == [Process(kind, m), Process(kind, n)]
  {
    assert [m, n][..1] == [m] && [m][..0] == [] && [m, n][1..] == [n] && [n][1..] == [];
  }

  lemma PendingThree()
    ensures Pending([1, 3, 2], {1}) == [3, 2] && Pending([1], {1}) == []
  {
    PendingConcat([1], [3, 2], {1});
    PendingConcat([3], [2], {1});
    PendingOne(1, {1});
    PendingOne(2, {1});
    PendingOne(3, {1});
    assert [1] + [3, 2] == [1, 3, 2] && [3] + [2] == [3, 2];
  }

  lemma AddedThree()
    ensures Elements([3, 2]) == {2, 3}
    ensures AddNumbers(Done({1}, {7}), Issue, {2, 3}) == Done({1, 2, 3}, {7})
  {
    assert {1} + {2, 3} == {1, 2, 3};
  }

  lemma ActionsOfBatch(done: Done, batch: WorkBatch, pending: seq<int>, next: Done)
    requires pending == Pending(batch.numbers, Numbers(done, batch.kind)) && pending != []
    requires next == AddNumbers(done, batch.kind, Elements(pending))
    ensures BatchActions(done, batch) == ProcessAll(batch.kind, pending) + [Checkpoint(BuildStateSnapshot(next))]
  {
  }

  lemma EmptyBatchDoesNothing(done: Done, batch: WorkBatch)
    requires Pending(batch.numbers, Numbers(done, batch.kind)) == []
    ensures BatchActions(done, batch) == []
  {
  }

  /** Item 1 is known, so 3 and 2 are labelled; the file then holds all three and the pull requests it held before. */
  lemma ThreeIssues()
    ensures BatchActions(Done({1}, {7}), WorkBatch(Issue, [1, 3, 2])) ==
            [Process(Issue, 3), Process(Issue, 2), Checkpoint(BuildStateSnapshot(Done({1, 2, 3}, {7})))]
    ensures BatchActions(Done({1}, {7}), WorkBatch(Issue, [1])) == []
  {
    PendingThree();
    ProcessTwo(Issue, 3, 2);
    AddedThree();
    ActionsOfBatch(Done({1}, {7}), WorkBatch(Issue, [1, 3, 2]), [3, 2], Done({1, 2, 3}, {7}));
    EmptyBatchDoesNothing(Done({1}, {7}), WorkBatch(Issue, [1]));
  }

  /** A snapshot is of version 1. */
  lemma SnapshotVersion(done: Done)
    ensures BuildStateSnapshot(done).version == 1
  {
  }

  /** The positions of actions that labelled an item whose number is in no list of the file. */
  function UnsavedPlaces(actions: seq<Action>, file: Option<StateFile>): set<nat> {
    set i: nat | i < |actions| && actions[i].Process? && actions[i].number !in Numbers(LoadState(file), actions[i].kind)
  }

  lemma {:induction false} UnsavedCounts(actions: seq<Action>, file: Option<StateFile>)
    ensures Unsaved(actions, file) == |UnsavedPlaces(actions, file)|
  {
    if actions != [] {
      var n := |actions| - 1;
      UnsavedCounts(actions[..n], file);
      var before, after := UnsavedPlaces(actions[..n], file), UnsavedPlaces(actions, file);
      assert n !in before;
      if IsSaved(file, actions[n]) {
        assert after == before;
      } else {
        assert after == before + {n};
      }
    }
  }

  /** The numbers of a list in the file, whatever else it holds, and the two lists are kept apart. */
  lemma LoadedNumbers(issues: Option<seq<Value>>, pullRequests: Option<seq<Value>>, n: int)
    ensures var done := LoadState(Some(StateFile(issues, pullRequests)));
            && (n in done.issues <==> issues.Some? && Number(n) in issues.value)
            && (n in done.pullRequests <==> pullRequests.Some? && Number(n) in pullRequests.value)
    ensures Numbers(LoadState(None), Issue) == {} && Numbers(LoadState(None), PullRequest) == {}
    ensures forall done: Done :: Numbers(done, Issue) == done.issues && Numbers(done, PullRequest) == done.pullRequests
  {
  }
}
