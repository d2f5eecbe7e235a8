/** Streaming a table page by page on its primary key while others write to it
  * (src/pheasant/analytics.py, _stream_table). */
module KeysetPaging {
  import opened Options
  import opened Sums

  /** A row: its key, as the rank of the key in the database's own ordering, and the rest of it. */
  datatype Row<V> = Row(key: int, value: V)

  ghost predicate SortedByKey<V>(rows: seq<Row<V>>) {
    forall i, j :: 0 <= i < j < |rows| ==> rows[i].key < rows[j].key
  }

  /** The rows past a key, of a table listed in key order. */
  function After<V>(table: seq<Row<V>>, after: Option<int>): seq<Row<V>> {
    if table == [] || after == None || table[0].key > after.value then table
    else After(table[1..], after)
  }

  /** `SELECT ... [WHERE key > ?] ORDER BY key LIMIT ?` on a table listed in key order. */
  function Page<V>(table: seq<Row<V>>, after: Option<int>, batch: nat): (page: seq<Row<V>>)
    ensures |page| <= batch
  {
    var rest := After(table, after);
    if |rest| <= batch then rest else rest[..batch]
  }

  /** The table as each read finds it. The generator is followed for as many reads as there are
    * versions; writers may keep it going for ever. */
  ghost predicate Tables<V>(versions: seq<seq<Row<V>>>) {
    forall i :: 0 <= i < |versions| ==> SortedByKey(versions[i])
  }

  lemma {:induction false} AfterIsSuffix<V>(table: seq<Row<V>>, after: Option<int>) returns (k: nat)
    requires SortedByKey(table)
    ensures k <= |table| && After(table, after) == table[k..]
    ensures forall i :: 0 <= i < |table| ==> (i >= k <==> after == None || table[i].key > after.value)
  {
    if table == [] || after == None || table[0].key > after.value {
      k := 0;
    } else {
      var j := AfterIsSuffix(table[1..], after);
      k := j + 1;
      assert table[1..][j..] == table[k..];
      assert forall i :: 1 <= i < |table| ==> table[i] == table[1..][i - 1];
    }
  }

  /** A page is a stretch of the table from the first row past `after`. */
  lemma PageIsStretch<V>(table: seq<Row<V>>, after: Option<int>, batch: nat) returns (k: nat)
    requires SortedByKey(table)
    ensures var page := Page(table, after, batch);
      && k + |page| <= |table| && page == table[k..k + |page|]
      && (|page| == batch || k + |page| == |table|)
    ensures forall i :: 0 <= i < |table| ==> (i >= k <==> after == None || table[i].key > after.value)
  {
    k := AfterIsSuffix(table, after);
  }

  lemma StretchAt<V>(table: seq<Row<V>>, k: nat, n: nat, r: Row<V>)
    requires SortedByKey(table) && k + n <= |table|
    ensures SortedByKey(table[k..k + n])
    ensures r in table[k..k + n] <==> exists i :: k <= i < k + n && table[i] == r
  {
    var page := table[k..k + n];
    assert forall j :: 0 <= j < n ==> page[j] == table[k + j];
    if i :| k <= i < k + n && table[i] == r { assert page[i - k] == r; }
  }

  /** A page holds the least keys past `after`, in order, and stops short only when it holds them all. */
  lemma PageExactly<V>(table: seq<Row<V>>, after: Option<int>, batch: nat)
    requires SortedByKey(table)
    ensures var page := Page(table, after, batch);
      && SortedByKey(page)
      && (forall r :: r in page ==> r in table && (after == None || r.key > after.value))
      && (forall r :: r in table && (after == None || r.key > after.value) && r !in page ==>
            |page| == batch && forall p :: p in page ==> p.key < r.key)
  {
    var k := PageIsStretch(table, after, batch);
    var page := Page(table, after, batch);
    forall r ensures SortedByKey(page) && (r in page <==> exists i :: k <= i < k + |page| && table[i] == r) {
      StretchAt(table, k, |page|, r);
    }
    forall r | r in table && (after == None || r.key > after.value) && r !in page
      ensures |page| == batch && forall p :: p in page ==> p.key < r.key
    {
      var i :| 0 <= i < |table| && table[i] == r;
    }
  }

  /** What the generator has yielded after some reads, and whether it has returned. */
  datatype Stream<V> = Stream(pages: seq<seq<Row<V>>>, after: Option<int>, done: bool, count: nat)

  /** `_stream_table`, followed through the given versions of the table. */
  method StreamTable<V>(versions: seq<seq<Row<V>>>, batch: nat) returns (s: Stream<V>)
    ensures s == Followed(versions, batch)
    ensures s.done || s.count == |versions|
  {
    var after: Option<int> := None;
    var pages: seq<seq<Row<V>>> := [];
    var made := 0;
    assert versions[..0] == [];
    while made < |versions|
      invariant made <= |versions|
      invariant Followed(versions[..made], batch) == Stream(pages, after, false, made)
    {
      var page := Page(versions[made], after, batch);
      made := made + 1;
      assert versions[..made][..made - 1] == versions[..made - 1];
      if page == [] {
        s := Stream(pages, after, true, made);
        DoneStays(versions, batch, made);
        return;
      }
      pages := pages + [page];
      after := Some(page[|page| - 1].key);
      if |page| < batch {
        s := Stream(pages, after, true, made);
        DoneStays(versions, batch, made);
        return;
      }
    }
    assert versions[..made] == versions;
    s := Stream(pages, after, false, made);
  }

  /** One more read. */
  function ReadOnce<V>(s: Stream<V>, table: seq<Row<V>>, batch: nat): Stream<V> {
    var page := Page(table, s.after, batch);
    if page == [] then s.(done := true, count := s.count + 1)
    else Stream(s.pages + [page], Some(page[|page| - 1].key), |page| < batch, s.count + 1)
  }

  function Followed<V>(versions: seq<seq<Row<V>>>, batch: nat): Stream<V> {
    if versions == [] then Stream([], None, false, 0)
    else
      var s := Followed(versions[..|versions| - 1], batch);
      if s.done then s else ReadOnce(s, versions[|versions| - 1], batch)
  }

  lemma {:induction false} DoneStays<V>(versions: seq<seq<Row<V>>>, batch: nat, n: nat)
    requires n <= |versions| && Followed(versions[..n], batch).done
    ensures Followed(versions, batch) == Followed(versions[..n], batch)
  {
    if n < |versions| {
      assert versions[..|versions| - 1][..n] == versions[..n];
      DoneStays(versions[..|versions| - 1], batch, n);
    } else {
      assert versions[..n] == versions;
    }
  }

  // ----- whatever writers do -----

  ghost predicate AtOrBefore<V>(rows: seq<Row<V>>, after: Option<int>) {
    if after == None then rows == [] else forall i :: 0 <= i < |rows| ==> rows[i].key <= after.value
  }

  lemma ConcatStep<V>(pages: seq<seq<Row<V>>>, page: seq<Row<V>>)
    ensures Flatten(pages + [page]) == Flatten(pages) + page
  {
    assert (pages + [page])[..|pages|] == pages;
  }

  lemma SortedConcat<V>(a: seq<Row<V>>, b: seq<Row<V>>, after: Option<int>)
    requires SortedByKey(a) && SortedByKey(b) && AtOrBefore(a, after)
    requires forall r :: r in b ==> after == None || r.key > after.value
    ensures SortedByKey(a + b)
    ensures b != [] ==> AtOrBefore(a + b, Some(b[|b| - 1].key))
  {
    if b != [] {
      forall i | 0 <= i < |a + b| ensures (a + b)[i].key <= b[|b| - 1].key {
        if i < |a| { assert a[i].key <= after.value < b[0].key; }
      }
    }
  }

  /** The yielded keys increase, and none is past the key the next read starts after. */
  ghost predicate InOrder<V>(s: Stream<V>) {
    SortedByKey(Flatten(s.pages)) && AtOrBefore(Flatten(s.pages), s.after)
  }

  lemma ReadKeepsOrder<V>(s: Stream<V>, table: seq<Row<V>>, batch: nat)
    requires InOrder(s) && SortedByKey(table)
    ensures InOrder(ReadOnce(s, table, batch))
  {
    var page := Page(table, s.after, batch);
    PageExactly(table, s.after, batch);
    ConcatStep(s.pages, page);
    SortedConcat(Flatten(s.pages), page, s.after);
  }

  /** With the table changing arbitrarily between reads, the yielded keys strictly increase: no row
    * comes twice. */
  lemma {:induction false} YieldedKeysIncrease<V>(versions: seq<seq<Row<V>>>, batch: nat)
    requires Tables(versions)
    ensures InOrder(Followed(versions, batch))
  {
    if versions != [] {
      var n := |versions| - 1;
      YieldedKeysIncrease(versions[..n], batch);
      ReadKeepsOrder(Followed(versions[..n], batch), versions[n], batch);
    }
  }

  lemma {:induction false} ReadsCount<V>(versions: seq<seq<Row<V>>>, batch: nat)
    ensures Followed(versions, batch).count <= |versions|
    ensures !Followed(versions, batch).done ==> Followed(versions, batch).count == |versions|
  {
    if versions != [] { ReadsCount(versions[..|versions| - 1], batch); }
  }

  lemma ReadYields<V>(s: Stream<V>, table: seq<Row<V>>, batch: nat, r: Row<V>)
    requires SortedByKey(table) && r in Flatten(ReadOnce(s, table, batch).pages)
    ensures r in Flatten(s.pages) || r in table
  {
    PageExactly(table, s.after, batch);
    ConcatStep(s.pages, Page(table, s.after, batch));
  }

  /** Every yielded row was in the table at one of the reads made. */
  lemma {:induction false} YieldedWasRead<V>(versions: seq<seq<Row<V>>>, batch: nat, r: Row<V>) returns (i: nat)
    requires Tables(versions) && r in Flatten(Followed(versions, batch).pages)
    ensures i < |versions| && i < Followed(versions, batch).count && r in versions[i]
  {
    var n := |versions| - 1;
    var s := Followed(versions[..n], batch);
    if r in Flatten(s.pages) {
      i := YieldedWasRead(versions[..n], batch, r);
    } else {
      i := n;
      ReadsCount(versions[..n], batch);
      ReadYields(s, versions[n], batch, r);
    }
  }

  /** The row was yielded, or the stream has not come to its key yet. */
  ghost predicate YieldedWhenPassed<V>(s: Stream<V>, r: Row<V>) {
    (s.done || (s.after.Some? && s.after.value >= r.key)) ==> r in Flatten(s.pages)
  }

  lemma ReadYieldsSteadyRow<V>(s: Stream<V>, table: seq<Row<V>>, batch: nat, r: Row<V>)
    requires SortedByKey(table) && batch >= 1 && r in table && !s.done && YieldedWhenPassed(s, r)
    ensures YieldedWhenPassed(ReadOnce(s, table, batch), r)
  {
    var page := Page(table, s.after, batch);
    PageExactly(table, s.after, batch);
    ConcatStep(s.pages, page);
    if (s.after == None || s.after.value < r.key) && r !in page {
      assert page[|page| - 1].key < r.key;
    }
  }

  /** A row present at every read made is yielded, exactly once since keys increase, as soon as the
    * stream has passed its key, and in any case by the time the stream ends. */
  lemma {:induction false} SteadyRowIsYielded<V>(versions: seq<seq<Row<V>>>, batch: nat, r: Row<V>)
    requires Tables(versions) && batch >= 1
    requires forall i :: 0 <= i < |versions| && i < Followed(versions, batch).count ==> r in versions[i]
    ensures YieldedWhenPassed(Followed(versions, batch), r)
  {
    if versions != [] {
      var n := |versions| - 1;
      var s := Followed(versions[..n], batch);
      assert s.count <= Followed(versions, batch).count;
      SteadyRowIsYielded(versions[..n], batch, r);
      ReadsCount(versions[..n], batch);
      if !s.done { ReadYieldsSteadyRow(s, versions[n], batch, r); }
    }
  }

  // ----- a table nobody writes to -----

  function Same<V>(table: seq<Row<V>>, n: nat): seq<seq<Row<V>>> { seq(n, _ => table) }

  /** k reads of one and the same table. */
  function Steady<V>(table: seq<Row<V>>, batch: nat, k: nat): Stream<V> {
    if k == 0 then Stream([], None, false, 0)
    else
      var s := Steady(table, batch, k - 1);
      if s.done then s else ReadOnce(s, table, batch)
  }

  lemma {:induction false} SteadyIsFollowed<V>(table: seq<Row<V>>, batch: nat, k: nat)
    ensures Followed(Same(table, k), batch) == Steady(table, batch, k)
  {
    if k > 0 {
      assert Same(table, k)[..k - 1] == Same(table, k - 1);
      SteadyIsFollowed(table, batch, k - 1);
    }
  }

  /** A page of an unchanging table past the rows taken. */
  lemma PageAfter<V>(table: seq<Row<V>>, batch: nat, taken: nat, after: Option<int>)
    requires SortedByKey(table) && taken <= |table|
    requires after == if taken == 0 then None else Some(table[taken - 1].key)
    ensures Page(table, after, batch) ==
      if |table| - taken <= batch then table[taken..] else table[taken..taken + batch]
  {
    var at := AfterIsSuffix(table, after);
    assert 0 < taken < |table| ==> table[taken - 1].key < table[taken].key;
    assert at == taken;
  }

  /** The stream stands after the first `taken` rows. */
  ghost predicate HasTaken<V>(s: Stream<V>, table: seq<Row<V>>, k: nat, taken: nat)
    requires taken <= |table|
  {
    && Flatten(s.pages) == table[..taken] && s.count == k
    && s.after == if taken == 0 then None else Some(table[taken - 1].key)
  }

  lemma BatchAt<V>(table: seq<Row<V>>, batch: nat, before: nat, after: Option<int>) returns (page: seq<Row<V>>)
    requires SortedByKey(table) && 1 <= batch && before + batch <= |table|
    requires after == if before == 0 then None else Some(table[before - 1].key)
    ensures page == Page(table, after, batch) && |page| == batch
    ensures page[batch - 1] == table[before + batch - 1]
    ensures table[..before] + page == table[..before + batch]
  {
    PageAfter(table, batch, before, after);
    page := table[before..before + batch];
    assert |table| - before == batch ==> table[before..] == page;
  }

  /** Reading one more full batch. */
  lemma FullRead<V>(s: Stream<V>, table: seq<Row<V>>, batch: nat, k: nat, before: nat)
    requires SortedByKey(table) && batch >= 1 && before + batch <= |table|
    requires HasTaken(s, table, k, before) && !s.done
    ensures HasTaken(ReadOnce(s, table, batch), table, k + 1, before + batch) && !ReadOnce(s, table, batch).done
  {
    var page := BatchAt(table, batch, before, s.after);
    ConcatStep(s.pages, page);
  }

  /** Reading the rows left over, fewer than a batch. */
  lemma LastRead<V>(s: Stream<V>, table: seq<Row<V>>, batch: nat, k: nat, taken: nat)
    requires SortedByKey(table) && taken <= |table| < taken + batch
    requires HasTaken(s, table, k, taken)
    ensures var last := ReadOnce(s, table, batch);
      last.done && last.count == k + 1 && Flatten(last.pages) == table
  {
    PageAfter(table, batch, taken, s.after);
    ConcatStep(s.pages, table[taken..]);
    assert table[..taken] + table[taken..] == table;
  }

  /** How many rows k full batches are. */
  function Taken(k: nat, batch: nat): nat {
    if k == 0 then 0 else Taken(k - 1, batch) + batch
  }

  lemma {:induction false} TakenIsProduct(k: nat, batch: nat)
    ensures Taken(k, batch) == k * batch
  {
    if k > 0 { TakenIsProduct(k - 1, batch); }
  }

  lemma WholeBatches(n: nat, batch: nat)
    requires batch >= 1
    ensures Taken(n / batch, batch) <= n < Taken(n / batch, batch) + batch
  {
    TakenIsProduct(n / batch, batch);
  }

  /** After k reads of an unchanging table the pages are its first k batches. */
  lemma {:induction false} UnchangedPrefix<V>(table: seq<Row<V>>, batch: nat, k: nat)
    requires SortedByKey(table) && batch >= 1 && Taken(k, batch) <= |table|
    ensures HasTaken(Steady(table, batch, k), table, k, Taken(k, batch)) && !Steady(table, batch, k).done
  {
    if k > 0 {
      UnchangedPrefix(table, batch, k - 1);
      FullRead(Steady(table, batch, k - 1), table, batch, k - 1, Taken(k - 1, batch));
    }
  }

  lemma {:induction false} SteadyStops<V>(table: seq<Row<V>>, batch: nat, n: nat, allowed: nat)
    requires n <= allowed && Steady(table, batch, n).done
    ensures Steady(table, batch, allowed) == Steady(table, batch, n)
  {
    if n < allowed { SteadyStops(table, batch, n, allowed - 1); }
  }

  lemma WholeAfter<V>(table: seq<Row<V>>, batch: nat, k: nat)
    requires SortedByKey(table) && batch >= 1 && Taken(k, batch) <= |table| < Taken(k, batch) + batch
    ensures var s := Steady(table, batch, k + 1);
      s.done && s.count == k + 1 && Flatten(s.pages) == table
  {
    UnchangedPrefix(table, batch, k);
    LastRead(Steady(table, batch, k), table, batch, k, Taken(k, batch));
  }

  lemma FollowedWhole<V>(table: seq<Row<V>>, batch: nat, k: nat, allowed: nat)
    requires SortedByKey(table) && batch >= 1 && Taken(k, batch) <= |table| < Taken(k, batch) + batch
    requires allowed >= k + 1
    ensures var s := Followed(Same(table, allowed), batch);
      s.done && s.count == k + 1 && Flatten(s.pages) == table
  {
    WholeAfter(table, batch, k);
    SteadyStops(table, batch, k + 1, allowed);
    SteadyIsFollowed(table, batch, allowed);
  }

  /** On an unchanging table of n rows the pages concatenate to the table in key order after exactly
    * n / batch + 1 reads, however many more are allowed. */
  lemma UnchangedTableStreamsWhole<V>(table: seq<Row<V>>, batch: nat, allowed: nat)
    requires SortedByKey(table) && batch >= 1 && allowed >= |table| / batch + 1
    ensures var s := Followed(Same(table, allowed), batch);
      s.done && s.count == |table| / batch + 1 && Flatten(s.pages) == table
  {
    WholeBatches(|table|, batch);
    FollowedWhole(table, batch, |table| / batch, allowed);
  }
}
