/** Graph rows handed out in pages (src/pheasant/analytics.py, _graph_node_pages, _graph_edge_pages). */
module GraphPages {
  import opened Lists
  import opened Sums

  /** Parallel edges between one pair of nodes. */
  datatype Edges<D> = Edges(from: string, to: string, parallel: seq<D>)

  datatype EdgeRow<D> = EdgeRow(from: string, to: string, data: D)

  function RowsOf<D>(e: Edges<D>): (rows: seq<EdgeRow<D>>)
    ensures |rows| == |e.parallel|
    ensures forall i :: 0 <= i < |rows| ==> rows[i] == EdgeRow(e.from, e.to, e.parallel[i])
  {
    seq(|e.parallel|, i requires 0 <= i < |e.parallel| => EdgeRow(e.from, e.to, e.parallel[i]))
  }

  /** One row per parallel edge, not per node pair. */
  function EdgeRows<D>(edges: seq<Edges<D>>): seq<EdgeRow<D>> {
    if edges == [] then [] else EdgeRows(edges[..|edges| - 1]) + RowsOf(edges[|edges| - 1])
  }

  /** How many parallel edges the pairs have. */
  function Parallel<D>(edges: seq<Edges<D>>): nat {
    if edges == [] then 0 else Parallel(edges[..|edges| - 1]) + |edges[|edges| - 1].parallel|
  }

  /** The k-th parallel edge of the i-th pair is the row that as many rows precede as there are edges before
    * it; its ends are the pair's, its data its own, and there are no other rows. */
  lemma {:induction false} EdgeRowAt<D>(edges: seq<Edges<D>>, i: nat, k: nat)
    requires i < |edges| && k < |edges[i].parallel|
    ensures |EdgeRows(edges)| == Parallel(edges) && Parallel(edges[..i]) + k < Parallel(edges)
    ensures var row := EdgeRows(edges)[Parallel(edges[..i]) + k];
      row.from == edges[i].from && row.to == edges[i].to && row.data == edges[i].parallel[k]
  {
    var n := |edges| - 1;
    RowsCounted(edges[..n]);
    RowsCounted(edges);
    if i < n {
      EdgeRowAt(edges[..n], i, k);
      TakeTake(edges, i, n);
    }
  }

  lemma {:induction false} RowsCounted<D>(edges: seq<Edges<D>>)
    ensures |EdgeRows(edges)| == Parallel(edges)
  {
    if edges != [] { RowsCounted(edges[..|edges| - 1]); }
  }

  /** A batch size below one still makes pages of one row. */
  function Size(batch: int): nat { if batch < 1 then 1 else batch }

  /** Pages that hold these rows in order: every one full but the last, and none empty. */
  ghost predicate Paged<T>(pages: seq<seq<T>>, rows: seq<T>, batch: int) {
    && Flatten(pages) == rows
    && (forall i :: 0 <= i < |pages| ==> 1 <= |pages[i]| <= Size(batch))
    && (forall i :: 0 <= i < |pages| - 1 ==> |pages[i]| == Size(batch))
  }

  /** Full pages so far and the rows waiting for the next. */
  ghost predicate Filling<T>(pages: seq<seq<T>>, page: seq<T>, rows: seq<T>, batch: int) {
    && Flatten(pages) + page == rows && |page| < Size(batch)
    && (forall i :: 0 <= i < |pages| ==> |pages[i]| == Size(batch))
  }

  lemma FlattenStep<T>(pages: seq<seq<T>>, page: seq<T>)
    ensures Flatten(pages + [page]) == Flatten(pages) + page
  {
    assert (pages + [page])[..|pages|] == pages;
  }

  /** One more row: it completes a page or waits in it. */
  lemma RowAdded<T>(pages: seq<seq<T>>, page: seq<T>, rows: seq<T>, row: T, batch: int)
    requires Filling(pages, page, rows, batch)
    ensures if |page + [row]| >= batch then Filling(pages + [page + [row]], [], rows + [row], batch)
      else Filling(pages, page + [row], rows + [row], batch)
  {
    FlattenStep(pages, page + [row]);
    assert Flatten(pages) + (page + [row]) == (Flatten(pages) + page) + [row];
    assert (Flatten(pages) + (page + [row])) + [] == Flatten(pages) + (page + [row]);
  }

  /** The rows still waiting are the last page. */
  lemma LastPage<T>(pages: seq<seq<T>>, page: seq<T>, rows: seq<T>, batch: int)
    requires Filling(pages, page, rows, batch)
    ensures Paged(if page == [] then pages else pages + [page], rows, batch)
  {
    FlattenStep(pages, page);
  }

  /** `_graph_node_pages`, on the rows the nodes make. */
  method NodePages<T>(rows: seq<T>, batch: int) returns (pages: seq<seq<T>>)
    ensures Paged(pages, rows, batch)
  {
    pages := [];
    var page: seq<T> := [];
    assert rows[..0] == [];
    for i := 0 to |rows|
      invariant Filling(pages, page, rows[..i], batch)
    {
      RowAdded(pages, page, rows[..i], rows[i], batch);
      assert rows[..i] + [rows[i]] == rows[..i + 1];
      page := page + [rows[i]];
      if |page| >= batch {
        pages := pages + [page];
        page := [];
      }
    }
    assert rows[..|rows|] == rows;
    LastPage(pages, page, rows, batch);
    if page != [] { pages := pages + [page]; }
  }

  /** No pair has more parallel edges. */
  ghost predicate Widest<D>(edges: seq<Edges<D>>, widest: nat) {
    forall e :: e in edges ==> |e.parallel| <= widest
  }

  /** What a page may hold before the pair that completes it. */
  function Below(batch: int): nat { if batch < 1 then 0 else batch - 1 }

  /** Pages made of whole pairs, one group of consecutive pairs each. */
  ghost predicate Grouped<D>(pages: seq<seq<EdgeRow<D>>>, groups: seq<seq<Edges<D>>>) {
    |groups| == |pages| && forall i :: 0 <= i < |pages| ==> pages[i] == EdgeRows(groups[i])
  }

  /** The size of a page is checked once for each pair, so a page may run over by the pair's edges. */
  ghost predicate Sized<D>(pages: seq<seq<EdgeRow<D>>>, batch: int, widest: nat) {
    forall i :: 0 <= i < |pages| ==> batch <= |pages[i]| <= Below(batch) + widest
  }

  lemma EdgeRowsStep<D>(edges: seq<Edges<D>>, e: Edges<D>)
    ensures EdgeRows(edges + [e]) == EdgeRows(edges) + RowsOf(e)
  {
    assert (edges + [e])[..|edges|] == edges;
  }

  /** Complete pages, their groups, and the pairs waiting for the next page. */
  ghost predicate Gathering<D>(pages: seq<seq<EdgeRow<D>>>, groups: seq<seq<Edges<D>>>, page: seq<EdgeRow<D>>,
      waiting: seq<Edges<D>>, edges: seq<Edges<D>>)
  {
    && Grouped(pages, groups) && page == EdgeRows(waiting) && Flatten(groups) + waiting == edges
    && Flatten(pages) + page == EdgeRows(edges)
  }

  lemma PairAdded<D>(pages: seq<seq<EdgeRow<D>>>, groups: seq<seq<Edges<D>>>, page: seq<EdgeRow<D>>,
      waiting: seq<Edges<D>>, edges: seq<Edges<D>>, e: Edges<D>)
    requires Gathering(pages, groups, page, waiting, edges)
    ensures Gathering(pages, groups, page + RowsOf(e), waiting + [e], edges + [e])
  {
    EdgeRowsStep(waiting, e);
    EdgeRowsStep(edges, e);
    assert Flatten(groups) + (waiting + [e]) == (Flatten(groups) + waiting) + [e];
    assert Flatten(pages) + (page + RowsOf(e)) == (Flatten(pages) + page) + RowsOf(e);
  }

  lemma PageDone<D>(pages: seq<seq<EdgeRow<D>>>, groups: seq<seq<Edges<D>>>, page: seq<EdgeRow<D>>,
      waiting: seq<Edges<D>>, edges: seq<Edges<D>>)
    requires Gathering(pages, groups, page, waiting, edges)
    ensures Gathering(pages + [page], groups + [waiting], [], [], edges)
  {
    FlattenStep(pages, page);
    FlattenStep(groups, waiting);
    assert Flatten(pages + [page]) + [] == Flatten(pages + [page]);
    assert Flatten(groups + [waiting]) + [] == Flatten(groups + [waiting]);
  }

  lemma SizedDone<D>(pages: seq<seq<EdgeRow<D>>>, page: seq<EdgeRow<D>>, batch: int, widest: nat)
    requires Sized(pages, batch, widest) && batch <= |page| <= Below(batch) + widest
    ensures Sized(pages + [page], batch, widest)
  {
  }

  /** One pair: its edges go into the page, which is yielded when it has the batch. */
  method AddPair<D>(e: Edges<D>, batch: int, ghost widest: nat, ghost edges: seq<Edges<D>>,
      pages0: seq<seq<EdgeRow<D>>>, ghost groups0: seq<seq<Edges<D>>>,
      page0: seq<EdgeRow<D>>, ghost waiting0: seq<Edges<D>>)
    returns (pages: seq<seq<EdgeRow<D>>>, ghost groups: seq<seq<Edges<D>>>,
             page: seq<EdgeRow<D>>, ghost waiting: seq<Edges<D>>)
    requires Gathering(pages0, groups0, page0, waiting0, edges) && |e.parallel| <= widest
    requires Sized(pages0, batch, widest) && |page0| <= Below(batch)
    ensures Gathering(pages, groups, page, waiting, edges + [e])
    ensures Sized(pages, batch, widest) && |page| <= Below(batch)
  {
    PairAdded(pages0, groups0, page0, waiting0, edges, e);
    pages, groups, waiting := pages0, groups0, waiting0 + [e];
    page := AppendEdges(page0, e);
    if |page| >= batch {
      PageDone(pages, groups, page, waiting, edges + [e]);
      SizedDone(pages, page, batch, widest);
      pages, groups := pages + [page], groups + [waiting];
      page, waiting := [], [];
    }
  }

  /** The loop over pairs. */
  method GatherEdges<D>(edges: seq<Edges<D>>, batch: int, ghost widest: nat)
    returns (pages: seq<seq<EdgeRow<D>>>, ghost groups: seq<seq<Edges<D>>>,
             page: seq<EdgeRow<D>>, ghost waiting: seq<Edges<D>>)
    requires Widest(edges, widest)
    ensures Gathering(pages, groups, page, waiting, edges)
    ensures Sized(pages, batch, widest) && |page| <= Below(batch)
  {
    pages, groups, page, waiting := [], [], [], [];
    assert edges[..0] == [];
    for i := 0 to |edges|
      invariant Gathering(pages, groups, page, waiting, edges[..i])
      invariant Sized(pages, batch, widest) && |page| <= Below(batch)
    {
      pages, groups, page, waiting := AddPair(edges[i], batch, widest, edges[..i], pages, groups, page, waiting);
      TakeNext(edges, i);
    }
    assert edges[..|edges|] == edges;
  }

  /** `_graph_edge_pages`: every row of every pair once and in order, no pair split between pages, every
    * page but the last at least the batch, and none over it by more than its last pair. */
  method EdgePages<D>(edges: seq<Edges<D>>, batch: int, ghost widest: nat)
    returns (pages: seq<seq<EdgeRow<D>>>, ghost groups: seq<seq<Edges<D>>>)
    requires Widest(edges, widest)
    ensures Flatten(pages) == EdgeRows(edges)
    ensures Grouped(pages, groups) && Flatten(groups) <= edges
    ensures forall i :: 0 <= i < |pages| ==> |pages[i]| <= Below(batch) + widest && (batch >= 1 ==> pages[i] != [])
    ensures forall i :: 0 <= i < |pages| - 1 ==> |pages[i]| >= batch
  {
    var page: seq<EdgeRow<D>>;
    ghost var waiting: seq<Edges<D>>;
    pages, groups, page, waiting := GatherEdges(edges, batch, widest);
    if page != [] {
      PageDone(pages, groups, page, waiting, edges);
      pages, groups := pages + [page], groups + [waiting];
    }
  }

  /** The inner loop: the parallel edges of one pair, appended in turn. */
  method AppendEdges<D>(page: seq<EdgeRow<D>>, e: Edges<D>) returns (after: seq<EdgeRow<D>>)
    ensures after == page + RowsOf(e)
  {
    after := page;
    assert page + RowsOf(e)[..0] == page;
    for k := 0 to |e.parallel|
      invariant after == page + RowsOf(e)[..k]
    {
      assert RowsOf(e)[..k] + [RowsOf(e)[k]] == RowsOf(e)[..k + 1];
      after := after + [EdgeRow(e.from, e.to, e.parallel[k])];
    }
    assert RowsOf(e)[..|e.parallel|] == RowsOf(e);
  }
}
