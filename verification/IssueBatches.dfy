/** The paging and batching generator of scripts/label-open-issues.ts. */
module IssueBatches {
  import opened Base

  const WORK_BATCH_SIZE := 500

  datatype Node = Node(number: int, title: string, body: Option<string>, labels: Option<seq<string>>)

  datatype LabelItem = LabelItem(number: int, title: string, body: string, labels: seq<string>)

  /** One page as the API returns it; the cursor of a page with a successor fetches that successor. */
  datatype Page = Page(nodes: seq<Node>, hasNextPage: bool)

  datatype Batch = Batch(batchIndex: nat, items: seq<LabelItem>, fetchedCount: nat)

  /** The `--limit` option: infinite when absent, and any number otherwise. */
  datatype Limit = Unlimited | AtMost(value: real)

  predicate Under(limit: Limit, count: nat) {
    limit.Unlimited? || count as real < limit.value
  }

  /** How many of `n` items the limit lets through: the first count that is no longer under it. */
  function LimitedCount(limit: Limit, n: nat): (k: nat)
    ensures k <= n && (k < n ==> !Under(limit, k)) && forall i: nat | i < k :: Under(limit, i)
  {
    if n == 0 then 0
    else
      var k := LimitedCount(limit, n - 1);
      if k == n - 1 && Under(limit, n - 1) then n else k
  }

  function MapNodeToLabelItem(node: Node): LabelItem {
    LabelItem(node.number, node.title, if node.body.Some? then node.body.value else "",
              if node.labels.Some? then node.labels.value else [])
  }

  function PageItems(nodes: seq<Node>): (r: seq<LabelItem>)
    ensures |r| == |nodes|
    ensures forall i | 0 <= i < |nodes| :: r[i] == MapNodeToLabelItem(nodes[i])
  {
    seq(|nodes|, i requires 0 <= i < |nodes| => MapNodeToLabelItem(nodes[i]))
  }

  /** The items of page `p` and of the pages its chain of successors leads to. */
  function Stream(pages: seq<Page>, p: nat): seq<LabelItem>
    decreases |pages| - p
  {
    if p >= |pages| then []
    else PageItems(pages[p].nodes) + if pages[p].hasNextPage then Stream(pages, p + 1) else []
  }

  /** What a run fetches: the page stream, cut at the limit. */
  function Fetched(pages: seq<Page>, limit: Limit): seq<LabelItem> {
    var all := Stream(pages, 0);
    all[..LimitedCount(limit, |all|)]
  }

  // ---------------------------------------------------------------- batches

  /** Items cut into work batches, the first one numbered `index` with `before` items ahead of it. */
  function BatchesOf(items: seq<LabelItem>, index: nat, before: nat): seq<Batch> {
    if items == [] then []
    else
      var n := if |items| < WORK_BATCH_SIZE then |items| else WORK_BATCH_SIZE;
      [Batch(index, items[..n], before + n)] + BatchesOf(items[n..], index + 1, before + n)
  }

  function Concatenated(batches: seq<Batch>): seq<LabelItem> {
    if batches == [] then [] else batches[0].items + Concatenated(batches[1..])
  }

  /** Put together, the batches are the items again. */
  lemma {:induction false} BatchesLoseNothing(items: seq<LabelItem>, index: nat, before: nat)
    ensures Concatenated(BatchesOf(items, index, before)) == items
    decreases |items|
  {
    if items != [] {
      var n := if |items| < WORK_BATCH_SIZE then |items| else WORK_BATCH_SIZE;
      BatchesLoseNothing(items[n..], index + 1, before + n);
      assert items[..n] + items[n..] == items;
    }
  }

  /** Indexes count up by one, every batch but the last is full, none is empty, and the counts are running sums. */
  lemma {:induction false} BatchShape(items: seq<LabelItem>, index: nat, before: nat, i: nat)
    requires i < |BatchesOf(items, index, before)|
    ensures var batches := BatchesOf(items, index, before);
            && batches[i].batchIndex == index + i
            && 1 <= |batches[i].items| <= WORK_BATCH_SIZE
            && (i < |batches| - 1 ==> |batches[i].items| == WORK_BATCH_SIZE)
            && batches[i].fetchedCount == before + |Concatenated(batches[..i + 1])|
    decreases |items|
  {
    var n := if |items| < WORK_BATCH_SIZE then |items| else WORK_BATCH_SIZE;
    var batches, rest := BatchesOf(items, index, before), BatchesOf(items[n..], index + 1, before + n);
    assert batches == [batches[0]] + rest;
    if i == 0 {
      assert batches[..1] == [batches[0]] && [batches[0]][1..] == [];
      assert Concatenated([batches[0]]) == batches[0].items + [];
    } else {
      BatchShape(items[n..], index + 1, before + n, i - 1);
      assert batches[..i + 1][1..] == rest[..i];
    }
  }

  // ---------------------------------------------------------------- the generator

  /** The fetched pages are enough: one of them says that it is the last, or their items reach the limit. */
  predicate Suffices(pages: seq<Page>, limit: Limit) {
    (exists i :: 0 <= i < |pages| && !pages[i].hasNextPage) || !Under(limit, |Stream(pages, 0)|)
  }

  /** The generator's position in its target: what it has yielded, what it still holds back, and what is to come. */
  ghost predicate Generating(target: seq<LabelItem>, yielded: seq<Batch>, results: seq<LabelItem>, fetchedCount: nat,
                             batchIndex: nat)
  {
    && |results| <= fetchedCount <= |target| && |results| < WORK_BATCH_SIZE
    && results == target[fetchedCount - |results|..fetchedCount]
    && BatchesOf(target, 1, 0) ==
       yielded + BatchesOf(target[fetchedCount - |results|..], batchIndex, fetchedCount - |results|)
  }

  lemma FetchedNext(pages: seq<Page>, limit: Limit, fetchedCount: nat)
    requires fetchedCount <= |Fetched(pages, limit)|
    ensures Under(limit, fetchedCount) && fetchedCount < |Stream(pages, 0)| ==>
              fetchedCount < |Fetched(pages, limit)|
              && Fetched(pages, limit)[fetchedCount] == Stream(pages, 0)[fetchedCount]
    ensures !Under(limit, fetchedCount) || fetchedCount == |Stream(pages, 0)| ==>
              fetchedCount == |Fetched(pages, limit)|
  {
  }

  lemma HeldBackNext(target: seq<LabelItem>, results: seq<LabelItem>, fetchedCount: nat)
    requires |results| <= fetchedCount < |target| && results == target[fetchedCount - |results|..fetchedCount]
    ensures results + [target[fetchedCount]] == target[fetchedCount - |results|..fetchedCount + 1]
  {
  }

  /** A batch that is complete moves from what is to come to what has been yielded. */
  lemma BatchCompleted(target: seq<LabelItem>, yielded: seq<Batch>, batch: seq<LabelItem>, fetchedCount: nat,
                       batchIndex: nat)
    requires |batch| == WORK_BATCH_SIZE <= fetchedCount <= |target|
    requires batch == target[fetchedCount - WORK_BATCH_SIZE..fetchedCount]
    requires BatchesOf(target, 1, 0) ==
             yielded + BatchesOf(target[fetchedCount - WORK_BATCH_SIZE..], batchIndex, fetchedCount - WORK_BATCH_SIZE)
    ensures BatchesOf(target, 1, 0) ==
            yielded + [Batch(batchIndex, batch, fetchedCount)]
            + BatchesOf(target[fetchedCount..], batchIndex + 1, fetchedCount)
  {
    var start := fetchedCount - WORK_BATCH_SIZE;
    YieldBatch(target[start..], batch, batchIndex, start);
    assert target[start..][WORK_BATCH_SIZE..] == target[fetchedCount..];
  }

  lemma YieldBatch(items: seq<LabelItem>, batch: seq<LabelItem>, index: nat, before: nat)
    requires |batch| == WORK_BATCH_SIZE && batch <= items
    ensures BatchesOf(items, index, before) ==
            [Batch(index, batch, before + WORK_BATCH_SIZE)]
            + BatchesOf(items[WORK_BATCH_SIZE..], index + 1, before + WORK_BATCH_SIZE)
  {
    assert items[..WORK_BATCH_SIZE] == batch;
  }

  /** Takes one item in, and yields the batch it completes. */
  method TakeItem(ghost target: seq<LabelItem>, yielded: seq<Batch>, results: seq<LabelItem>, fetchedCount: nat,
                  batchIndex: nat, item: LabelItem)
    returns (yielded': seq<Batch>, results': seq<LabelItem>, batchIndex': nat)
    requires Generating(target, yielded, results, fetchedCount, batchIndex)
    requires fetchedCount < |target| && item == target[fetchedCount]
    ensures Generating(target, yielded', results', fetchedCount + 1, batchIndex')
  {
    HeldBackNext(target, results, fetchedCount);
    results' := results + [item];
    if |results'| >= WORK_BATCH_SIZE {
      BatchCompleted(target, yielded, results', fetchedCount + 1, batchIndex);
      yielded' := yielded + [Batch(batchIndex, results', fetchedCount + 1)];
      batchIndex' := batchIndex + 1;
      results' := [];
    } else {
      yielded', batchIndex' := yielded, batchIndex;
    }
  }

  /** What is left of the page stream once everything before page `page` has been taken in. */
  ghost predicate Remains(pages: seq<Page>, fetchedCount: nat, page: nat) {
    fetchedCount <= |Stream(pages, 0)| && Stream(pages, 0)[fetchedCount..] == Stream(pages, page)
  }

  /** Under the limit, there is another page to fetch. */
  lemma AnotherPage(pages: seq<Page>, limit: Limit, fetchedCount: nat, page: nat)
    requires Suffices(pages, limit) && Under(limit, fetchedCount) && page <= |pages|
    requires Remains(pages, fetchedCount, page) && forall i | 0 <= i < page :: pages[i].hasNextPage
    ensures page < |pages|
  {
    assert Stream(pages, |pages|) == [];
  }

  /** Everything the generator yields. */
  method FetchOpenLabelItemBatches(pages: seq<Page>, limit: Limit) returns (yielded: seq<Batch>)
    requires Suffices(pages, limit)
    ensures yielded == BatchesOf(Fetched(pages, limit), 1, 0)
  {
    yielded := [];
    var results: seq<LabelItem> := [];
    var fetchedCount: nat := 0;
    var batchIndex: nat := 1;
    var page: nat := 0;
    ghost var target := Fetched(pages, limit);
    GeneratingStart(target);
    assert Remains(pages, 0, 0);
    while Under(limit, fetchedCount)
      invariant Generating(target, yielded, results, fetchedCount, batchIndex)
      invariant page <= |pages| && forall i | 0 <= i < page :: pages[i].hasNextPage
      invariant Under(limit, fetchedCount) ==> Remains(pages, fetchedCount, page)
      decreases |pages| - page
    {
      AnotherPage(pages, limit, fetchedCount, page);
      yielded, results, fetchedCount, batchIndex :=
        TakePage(pages, limit, page, yielded, results, fetchedCount, batchIndex);
      if !pages[page].hasNextPage {
        break;
      }
      page := page + 1;
    }
    FetchedNext(pages, limit, fetchedCount);
    yielded := YieldRest(target, yielded, results, fetchedCount, batchIndex);
  }

  lemma GeneratingStart(target: seq<LabelItem>)
    ensures Generating(target, [], [], 0, 1)
  {
    assert target[0..] == target;
  }

  method YieldRest(ghost target: seq<LabelItem>, yielded: seq<Batch>, results: seq<LabelItem>, fetchedCount: nat,
                   batchIndex: nat)
    returns (yielded': seq<Batch>)
    requires Generating(target, yielded, results, fetchedCount, batchIndex) && fetchedCount == |target|
    ensures yielded' == BatchesOf(target, 1, 0)
  {
    assert target[fetchedCount - |results|..] == results;
    yielded' := yielded;
    if |results| > 0 {
      LastBatch(results, batchIndex, fetchedCount - |results|);
      yielded' := yielded + [Batch(batchIndex, results, fetchedCount)];
    }
  }

  lemma LastBatch(results: seq<LabelItem>, index: nat, before: nat)
    requires 0 < |results| < WORK_BATCH_SIZE
    ensures BatchesOf(results, index, before) == [Batch(index, results, before + |results|)]
  {
    assert results[..|results|] == results && results[|results|..] == [];
  }

  lemma NextItem(all: seq<LabelItem>, i: nat, page: seq<LabelItem>, j: nat, rest: seq<LabelItem>)
    requires i <= |all| && j < |page| && all[i..] == page[j..] + rest
    ensures i < |all| && all[i] == page[j] && all[i + 1..] == page[j + 1..] + rest
  {
    assert all[i] == all[i..][0] && all[i + 1..] == all[i..][1..];
  }

  /** The page stream goes on with the items of this page and what follows it. */
  function Following(pages: seq<Page>, page: nat): seq<LabelItem>
    requires page < |pages|
  {
    if pages[page].hasNextPage then Stream(pages, page + 1) else []
  }

  /** The loop over the nodes of one page. */
  method TakePage(pages: seq<Page>, limit: Limit, page: nat, yielded: seq<Batch>, results: seq<LabelItem>,
                  fetchedCount: nat, batchIndex: nat)
    returns (yielded': seq<Batch>, results': seq<LabelItem>, fetchedCount': nat, batchIndex': nat)
    requires Generating(Fetched(pages, limit), yielded, results, fetchedCount, batchIndex)
    requires page < |pages| && Remains(pages, fetchedCount, page)
    ensures Generating(Fetched(pages, limit), yielded', results', fetchedCount', batchIndex')
    ensures fetchedCount' <= |Stream(pages, 0)|
    ensures Under(limit, fetchedCount') ==> Stream(pages, 0)[fetchedCount'..] == Following(pages, page)
  {
    yielded', results', fetchedCount', batchIndex' := yielded, results, fetchedCount, batchIndex;
    var nodes := pages[page].nodes;
    ghost var target, all, rest := Fetched(pages, limit), Stream(pages, 0), Following(pages, page);
    for j := 0 to |nodes|
      invariant Generating(target, yielded', results', fetchedCount', batchIndex')
      invariant fetchedCount' <= |all|
      invariant all[fetchedCount'..] == PageItems(nodes)[j..] + rest
    {
      if !Under(limit, fetchedCount') {
        break;
      }
      var item := MapNodeToLabelItem(nodes[j]);
      NextItem(all, fetchedCount', PageItems(nodes), j, rest);
      FetchedNext(pages, limit, fetchedCount');
      yielded', results', batchIndex' := TakeItem(target, yielded', results', fetchedCount', batchIndex', item);
      fetchedCount' := fetchedCount' + 1;
    }
  }

  // ---------------------------------------------------------------- what is fetched, told in numbers

  /** All items of some pages, in order. */
  function AllItems(pages: seq<Page>): seq<LabelItem> {
    if pages == [] then [] else PageItems(pages[0].nodes) + AllItems(pages[1..])
  }

  lemma {:induction false} StreamFrom(pages: seq<Page>, p: nat, last: nat)
    requires p <= last < |pages| && !pages[last].hasNextPage && forall i | p <= i < last :: pages[i].hasNextPage
    ensures Stream(pages, p) == AllItems(pages[p..last + 1])
    decreases last - p
  {
    assert pages[p..last + 1][0] == pages[p] && pages[p..last + 1][1..] == pages[p + 1..last + 1];
    if p < last {
      StreamFrom(pages, p + 1, last);
    } else {
      assert pages[p + 1..last + 1] == [];
    }
  }

  /** The page stream is the items of all pages up to the first that announces no other. */
  lemma StreamIsAllPages(pages: seq<Page>, last: nat)
    requires last < |pages| && !pages[last].hasNextPage && forall i | 0 <= i < last :: pages[i].hasNextPage
    ensures Stream(pages, 0) == AllItems(pages[..last + 1])
  {
    StreamFrom(pages, 0, last);
  }

  lemma {:induction false} StreamToTheEnd(pages: seq<Page>, p: nat)
    requires p <= |pages| && forall i | p <= i < |pages| :: pages[i].hasNextPage
    ensures Stream(pages, p) == AllItems(pages[p..])
    decreases |pages| - p
  {
    if p < |pages| {
      StreamToTheEnd(pages, p + 1);
      assert pages[p..][0] == pages[p] && pages[p..][1..] == pages[p + 1..];
    }
  }

  /** An item has its node's number, title, body and labels; a missing body is empty, missing labels are none. */
  lemma ItemsOfNodes(nodes: seq<Node>, i: nat)
    requires i < |nodes|
    ensures |PageItems(nodes)| == |nodes|
    ensures var node, item := nodes[i], PageItems(nodes)[i];
            && item.number == node.number && item.title == node.title
            && (node.body.Some? ==> item.body == node.body.value) && (node.body.None? ==> item.body == "")
            && (node.labels.Some? ==> item.labels == node.labels.value) && (node.labels.None? ==> item.labels == [])
  {
  }

  /** Without a limit everything is fetched. */
  lemma UnlimitedFetchesAll(pages: seq<Page>)
    ensures Fetched(pages, Unlimited) == Stream(pages, 0)
  {
    var all := Stream(pages, 0);
    assert all[..|all|] == all;
  }

  /** With any limit: everything, or the first items, the least number of them that is not below the limit. */
  lemma LimitFetchesLeast(pages: seq<Page>, value: real)
    ensures var all, k := Stream(pages, 0), |Fetched(pages, AtMost(value))|;
            && k <= |all| && Fetched(pages, AtMost(value)) == all[..k]
            && (k < |all| ==> k as real >= value)
            && (k > 0 ==> (k - 1) as real < value)
  {
    var all := Stream(pages, 0);
    var k := LimitedCount(AtMost(value), |all|);
    assert k > 0 ==> Under(AtMost(value), k - 1);
  }

  /** With a natural limit, the first that many items, or all. */
  lemma LimitFetchesFirst(pages: seq<Page>, n: nat)
    ensures var all := Stream(pages, 0);
            Fetched(pages, AtMost(n as real)) == if n <= |all| then all[..n] else all
  {
    var all, k := Stream(pages, 0), |Fetched(pages, AtMost(n as real))|;
    LimitFetchesLeast(pages, n as real);
    assert k <= n && (k < |all| ==> k >= n);
    assert all[..|all|] == all;
  }

  /** What the generator yields, put together: with a natural limit, the first that many items, or all. */
  lemma YieldedItems(pages: seq<Page>, n: nat)
    ensures var all, first := Stream(pages, 0), Fetched(pages, AtMost(n as real));
            && Concatenated(BatchesOf(first, 1, 0)) == (if n <= |all| then all[..n] else all)
            && Concatenated(BatchesOf(Fetched(pages, Unlimited), 1, 0)) == all
  {
    LimitFetchesFirst(pages, n);
    UnlimitedFetchesAll(pages);
    BatchesLoseNothing(Fetched(pages, AtMost(n as real)), 1, 0);
    BatchesLoseNothing(Fetched(pages, Unlimited), 1, 0);
  }

  /** Batches are numbered from one, and all but the last hold exactly 500 items. */
  lemma BatchesOfFiveHundred(items: seq<LabelItem>, i: nat)
    requires i < |BatchesOf(items, 1, 0)|
    ensures var batches := BatchesOf(items, 1, 0);
            && batches[i].batchIndex == 1 + i && 1 <= |batches[i].items| <= 500
            && (i < |batches| - 1 ==> |batches[i].items| == 500)
            && batches[i].fetchedCount == |Concatenated(batches[..i + 1])|
  {
    BatchShape(items, 1, 0, i);
  }

  /** Two items on one page and a limit of one: one is yielded. */
  lemma LimitOfOne(first: Node, second: Node)
    ensures Concatenated(BatchesOf(Fetched([Page([first, second], false)], AtMost(1.0)), 1, 0)) ==
            [MapNodeToLabelItem(first)]
  {
    var pages := [Page([first, second], false)];
    StreamIsAllPages(pages, 0);
    assert pages[..1] == pages && pages[1..] == [];
    assert Stream(pages, 0) == PageItems([first, second]);
    YieldedItems(pages, 1);
    assert (1 as nat) as real == 1.0;
  }
}
