/** Reading a listing page by page, each page's last id being the next page's cursor. */
module Pagination {
  import opened Seqs
  import opened CheckpointStore
  import opened StoreBisimulation

  /** The reader's loop over an unchanged store: at most `rounds` pages. */
  function Pages(m: Mem, q: ListQuery, before: Option<string>, rounds: nat): seq<Item>
    decreases rounds
  {
    if rounds == 0 then []
    else
      var page := MemList(m, q.(before := before));
      if page == [] then []
      else page + Pages(m, q, Some(page[|page| - 1].cid), rounds - 1)
  }

  /** The same reader over the SQL store. */
  function SqlPages(s: Sql, q: ListQuery, before: Option<string>, rounds: nat): seq<Item>
    decreases rounds
  {
    if rounds == 0 then []
    else
      var page := SqlList(s, q.(before := before));
      if page == [] then []
      else page + SqlPages(s, q, Some(page[|page| - 1].cid), rounds - 1)
  }

  function ItemAt(key: Key, records: map<string, Record>, id: string): Item
    requires id in records
  {
    ToItem(key, id, records[id])
  }

  lemma {:induction false} ItemsOfAll(key: Key, ids: seq<string>, records: map<string, Record>)
    requires forall i :: 0 <= i < |ids| ==> ids[i] in records
    ensures |ItemsOf(key, ids, records)| == |ids|
    ensures forall i :: 0 <= i < |ids| ==> ItemsOf(key, ids, records)[i] == ItemAt(key, records, ids[i])
  {
    if ids != [] {
      ItemsOfAll(key, ids[1..], records);
      assert forall i :: 0 < i < |ids| ==> ids[i] == ids[1..][i - 1];
    }
  }

  /** The full listing, newest first. */
  function Listing(m: Mem, key: Key): seq<Item> {
    ItemsOf(key, Reverse(m.Order(key)), m.Records(key))
  }

  lemma OrderRecorded(m: Mem, key: Key, c: string)
    requires MemValid(m)
    ensures c in m.Records(key) <==> c in m.Order(key)
    ensures NoDup(m.Order(key))
  {
  }

  lemma ReversedLaws(ids: seq<string>)
    requires NoDup(ids)
    ensures NoDup(Reverse(ids)) && forall c :: c in Reverse(ids) <==> c in ids
  {
    var back := Reverse(ids);
    forall c | c in ids ensures c in back {
      var i :| 0 <= i < |ids| && ids[i] == c;
      assert back[|ids| - 1 - i] == c;
    }
  }

  lemma ListingIds(m: Mem, key: Key)
    requires MemValid(m)
    ensures var all, order := Listing(m, key), m.Order(key);
            |all| == |order| && forall k :: 0 <= k < |all| ==> all[k].cid == order[|order| - 1 - k]
  {
    hide MemValid;
    var ids, records := Reverse(m.Order(key)), m.Records(key);
    OrderRecorded(m, key, "");
    ReversedLaws(m.Order(key));
    forall j | 0 <= j < |ids| ensures ids[j] in records {
      OrderRecorded(m, key, ids[j]);
    }
    ItemsOfAll(key, ids, records);
  }

  /** The cursor that the first `i` items left. */
  function CursorAfter(all: seq<Item>, i: nat): Option<string>
    requires i <= |all|
  {
    if i == 0 then None else Some(all[i - 1].cid)
  }

  lemma FirstPage(m: Mem, q: ListQuery, key: Key, cursor: Option<string>)
    requires Scoped(q) && q.limit.Some? && key == Key(q.thread.value, NsOf(q.ns))
    requires cursor == None || cursor == Some("")
    ensures MemList(m, q.(before := cursor)) == Take(Listing(m, key), q.limit.value)
  {
    hide MemList, Reverse, ItemsOf;
    MemListScoped(m, q.(before := cursor), key);
  }

  lemma LaterPage(m: Mem, q: ListQuery, key: Key, i: nat)
    requires MemValid(m) && Scoped(q) && q.limit.Some? && key == Key(q.thread.value, NsOf(q.ns))
    requires 0 < i <= |Listing(m, key)| && Listing(m, key)[i - 1].cid != ""
    ensures MemList(m, q.(before := Some(Listing(m, key)[i - 1].cid))) == Take(Listing(m, key)[i..], q.limit.value)
  {
    hide MemList, MemValid, Reverse, NoDup;
    var ids, records := Reverse(m.Order(key)), m.Records(key);
    OrderRecorded(m, key, "");
    ReversedLaws(m.Order(key));
    forall j | 0 <= j < |ids| ensures ids[j] in records {
      OrderRecorded(m, key, ids[j]);
    }
    ItemsOfAll(key, ids, records);
    MemListScoped(m, q.(before := Some(ids[i - 1])), key);
    CursorAt(ids, i - 1);
    TailItems(key, ids, records, i);
  }

  /** The page behind that cursor; an empty id is no cursor. */
  lemma PageAt(m: Mem, q: ListQuery, key: Key, i: nat)
    requires MemValid(m) && Scoped(q) && q.limit.Some? && key == Key(q.thread.value, NsOf(q.ns))
    requires i <= |Listing(m, key)|
    ensures var all := Listing(m, key); var cursor := CursorAfter(all, i);
            MemList(m, q.(before := cursor)) == Take(all[if cursor == Some("") then 0 else i..], q.limit.value)
  {
    hide MemList, MemValid, Listing, Scoped, Take;
    var all := Listing(m, key);
    var cursor := CursorAfter(all, i);
    if i == 0 || cursor == Some("") {
      FirstPage(m, q, key, cursor);
      assert all[0..] == all;
    } else {
      LaterPage(m, q, key, i);
    }
  }

  lemma TailItems(key: Key, ids: seq<string>, records: map<string, Record>, i: nat)
    requires i <= |ids| && forall j :: 0 <= j < |ids| ==> ids[j] in records
    ensures |ItemsOf(key, ids, records)| == |ids| && ItemsOf(key, ids[i..], records) == ItemsOf(key, ids, records)[i..]
  {
    ItemsOfAll(key, ids, records);
    assert forall j :: 0 <= j < |ids| - i ==> ids[i..][j] == ids[i + j];
    ItemsOfAll(key, ids[i..], records);
  }

  lemma CursorAt(ids: seq<string>, j: nat)
    requires NoDup(ids) && j < |ids| && ids[j] != ""
    ensures AfterCursor(ids, Some(ids[j])) == ids[j + 1..]
  {
    var i := IndexOf(ids, ids[j]);
    assert i == j;
  }

  function PageEnd(all: seq<Item>, i: nat, n: nat): nat {
    if i + n < |all| then i + n else |all|
  }

  /** Reading on from item `i` in pages of `n`, some page ends with an empty id. */
  predicate EmptyFrom(all: seq<Item>, i: nat, n: nat)
    requires n >= 1
    decreases |all| - i
  {
    i < |all| && (all[PageEnd(all, i, n) - 1].cid == "" || EmptyFrom(all, PageEnd(all, i, n), n))
  }

  lemma PageStep(m: Mem, q: ListQuery, key: Key, i: nat, at: nat, rounds: nat)
    requires MemValid(m) && Scoped(q) && q.limit.Some? && key == Key(q.thread.value, NsOf(q.ns))
    requires i <= |Listing(m, key)| && rounds > 0
    requires at == if CursorAfter(Listing(m, key), i) == Some("") then 0 else i
    ensures q.limit.value >= 1
    ensures var all := Listing(m, key);
            Pages(m, q, CursorAfter(all, i), rounds) ==
            if at == |all| then []
            else
              var next := PageEnd(all, at, q.limit.value);
              all[at..next] + Pages(m, q, CursorAfter(all, next), rounds - 1)
  {
    hide MemList, MemValid, Listing, Scoped;
    PageAt(m, q, key, i);
    LimitPositive(q);
    var all, n := Listing(m, key), q.limit.value;
    var next := PageEnd(all, at, n);
    var page := Take(all[at..], n);
    assert page == all[at..next];
  }

  lemma {:induction false} PagesFrom(m: Mem, q: ListQuery, key: Key, i: nat, rounds: nat)
    requires MemValid(m) && Scoped(q) && q.limit.Some? && key == Key(q.thread.value, NsOf(q.ns))
    requires q.limit.value >= 1 && i <= |Listing(m, key)| < i + rounds && CursorAfter(Listing(m, key), i) != Some("")
    requires !EmptyFrom(Listing(m, key), i, q.limit.value)
    ensures Pages(m, q, CursorAfter(Listing(m, key), i), rounds) == Listing(m, key)[i..]
    decreases rounds
  {
    hide MemList, MemValid, Listing, Scoped, Pages;
    PageStep(m, q, key, i, i, rounds);
    var all := Listing(m, key);
    var next := PageEnd(all, i, q.limit.value);
    if i < |all| {
      PagesFrom(m, q, key, next, rounds - 1);
      assert all[i..] == all[i..next] + all[next..];
    }
  }

  /** A page that ends with an empty id sends the reader back to the start: the paging never ends. */
  lemma {:induction false} PagesForever(m: Mem, q: ListQuery, key: Key, i: nat, rounds: nat)
    requires MemValid(m) && Scoped(q) && q.limit.Some? && key == Key(q.thread.value, NsOf(q.ns))
    requires q.limit.value >= 1 && EmptyFrom(Listing(m, key), 0, q.limit.value) && i <= |Listing(m, key)|
    requires CursorAfter(Listing(m, key), i) == Some("") || EmptyFrom(Listing(m, key), i, q.limit.value)
    ensures |Pages(m, q, CursorAfter(Listing(m, key), i), rounds)| >= rounds
    decreases rounds
  {
    hide MemList, MemValid, Listing, Scoped, Pages;
    if rounds > 0 {
      var all := Listing(m, key);
      var at := if CursorAfter(all, i) == Some("") then 0 else i;
      PageStep(m, q, key, i, at, rounds);
      PagesForever(m, q, key, PageEnd(all, at, q.limit.value), rounds - 1);
    }
  }

  lemma LimitPositive(q: ListQuery)
    requires Scoped(q) && q.limit.Some?
    ensures q.thread.Some? && q.limit.value >= 1
  {
  }

  /** An empty id stands where a page of `n` ends: at position n-1, 2n-1, ... of the listing, or last. */
  predicate EmptyAtPageEnd(all: seq<Item>, n: nat)
    requires n >= 1
  {
    exists j :: 0 <= j < |all| && all[j].cid == "" && EndsPage(|all|, n, j)
  }

  predicate EndsPage(size: nat, n: nat, j: nat)
    requires n >= 1
  {
    (j + 1) % n == 0 || j + 1 == size
  }

  lemma Remainder(q: nat, r: nat, n: nat)
    requires r < n
    ensures (q * n + r) % n == r
  {
    var x := q * n + r;
    var k, m := x / n, x % n;
    assert x == k * n + m;
    OneStep(k, q, n);
    OneStep(q, k, n);
  }

  lemma OneStep(a: nat, b: nat, n: nat)
    ensures a > b ==> a * n >= b * n + n
  {
    if a > b {
      assert a * n == (b + 1) * n + (a - b - 1) * n;
      assert (a - b - 1) * n >= 0;
    }
  }

  /** Of the positions of one page that starts at a multiple of `n`, just the last ends it. */
  lemma PageHasOneEnd(size: nat, n: nat, p: nat, j: nat)
    requires n >= 1 && p * n <= j < size && j < p * n + n
    ensures EndsPage(size, n, j) <==> j + 1 == p * n + n || j + 1 == size
  {
    var r := j + 1 - p * n;
    if r < n {
      Remainder(p, r, n);
    } else {
      Remainder(p + 1, 0, n);
      assert (p + 1) * n == p * n + n;
    }
  }

  lemma {:induction false} EmptyFromIff(all: seq<Item>, p: nat, n: nat)
    requires n >= 1
    ensures EmptyFrom(all, p * n, n) <==>
            exists j :: p * n <= j < |all| && all[j].cid == "" && EndsPage(|all|, n, j)
    decreases |all| - p * n
  {
    hide EndsPage;
    var i := p * n;
    if i < |all| {
      var next := PageEnd(all, i, n);
      PageHasOneEnd(|all|, n, p, next - 1);
      forall j | i <= j < next ensures EndsPage(|all|, n, j) <==> j == next - 1 {
        PageHasOneEnd(|all|, n, p, j);
      }
      if next < |all| {
        assert (p + 1) * n == i + n;
        EmptyFromIff(all, p + 1, n);
      }
    }
  }

  /** Paging is exact if and only if no page ends with an empty id: then pages of any size at least 1 concatenate to
      the full newest-first listing, each checkpoint once, after at most one page more than there are checkpoints;
      and otherwise they never end. */
  lemma PagingIsExactIff(ops: seq<Op>, q: ListQuery, rounds: nat)
    requires Scoped(q) && q.limit.Some?
    requires |MemRun(EMPTY_MEM, ops).Order(Key(q.thread.value, NsOf(q.ns)))| < rounds
    ensures var m, s := MemRun(EMPTY_MEM, ops), SqlRun(EMPTY_SQL, ops);
            var all := MemList(m, q.(before := None, limit := None));
            && q.limit.value >= 1 && NoDup(all)
            && (Pages(m, q, None, rounds) == all <==> !EmptyAtPageEnd(all, q.limit.value))
            && (EmptyAtPageEnd(all, q.limit.value) ==> |Pages(m, q, None, rounds)| >= rounds)
            && SqlPages(s, q, None, rounds) == Pages(m, q, None, rounds)
  {
    hide *;
    LimitPositive(q);
    var m, s := MemRun(EMPTY_MEM, ops), SqlRun(EMPTY_SQL, ops);
    EmptyMatches();
    RunsMatch(EMPTY_MEM, EMPTY_SQL, ops);
    MatchesValid(m, s);
    var key := Key(q.thread.value, NsOf(q.ns));
    ListingIds(m, key);
    WholeListing(m, q, key);
    ExactIff(m, q, key, rounds);
    ClosedForm(Listing(m, key), q.limit.value);
    SamePages(m, s, q, None, rounds);
    ListingNoDup(m, key);
  }

  lemma ClosedForm(all: seq<Item>, n: nat)
    requires n >= 1
    ensures EmptyFrom(all, 0, n) <==> EmptyAtPageEnd(all, n)
  {
    hide EmptyFrom, EndsPage;
    EmptyFromIff(all, 0, n);
    assert 0 * n == 0;
  }

  lemma WholeListing(m: Mem, q: ListQuery, key: Key)
    requires Scoped(q) && key == Key(q.thread.value, NsOf(q.ns))
    ensures MemList(m, q.(before := None, limit := None)) == Listing(m, key)
  {
    hide MemList, Reverse, ItemsOf;
    MemListScoped(m, q.(before := None, limit := None), key);
  }

  lemma ExactIff(m: Mem, q: ListQuery, key: Key, rounds: nat)
    requires MemValid(m) && Scoped(q) && q.limit.Some? && key == Key(q.thread.value, NsOf(q.ns))
    requires q.limit.value >= 1 && |Listing(m, key)| < rounds
    ensures Pages(m, q, None, rounds) == Listing(m, key) <==> !EmptyFrom(Listing(m, key), 0, q.limit.value)
    ensures EmptyFrom(Listing(m, key), 0, q.limit.value) ==> |Pages(m, q, None, rounds)| >= rounds
  {
    hide Pages, MemValid, Scoped, Listing, EmptyFrom;
    var all := Listing(m, key);
    if EmptyFrom(all, 0, q.limit.value) {
      PagesForever(m, q, key, 0, rounds);
    } else {
      PagesFrom(m, q, key, 0, rounds);
      assert all[0..] == all;
    }
  }

  /** With non-empty ids no page can end with one, so paging is exact. */
  lemma PagingIsExact(ops: seq<Op>, q: ListQuery, rounds: nat)
    requires Scoped(q) && q.limit.Some?
    requires var order := MemRun(EMPTY_MEM, ops).Order(Key(q.thread.value, NsOf(q.ns)));
             "" !in order && |order| < rounds
    ensures var m, s := MemRun(EMPTY_MEM, ops), SqlRun(EMPTY_SQL, ops);
            && Pages(m, q, None, rounds) == MemList(m, q.(before := None, limit := None))
            && SqlPages(s, q, None, rounds) == Pages(m, q, None, rounds)
            && NoDup(Pages(m, q, None, rounds))
  {
    hide *;
    LimitPositive(q);
    var m, key := MemRun(EMPTY_MEM, ops), Key(q.thread.value, NsOf(q.ns));
    PagingIsExactIff(ops, q, rounds);
    EmptyMatches();
    RunsMatch(EMPTY_MEM, EMPTY_SQL, ops);
    MatchesValid(m, SqlRun(EMPTY_SQL, ops));
    WholeListing(m, q, key);
    ListingIds(m, key);
    NoEmptyId(Listing(m, key), q.limit.value);
  }

  lemma NoEmptyId(all: seq<Item>, n: nat)
    requires n >= 1 && forall k :: 0 <= k < |all| ==> all[k].cid != ""
    ensures !EmptyAtPageEnd(all, n)
  {
  }

  lemma ListingNoDup(m: Mem, key: Key)
    requires MemValid(m)
    ensures NoDup(Listing(m, key))
  {
    hide MemValid;
    var ids, records := Reverse(m.Order(key)), m.Records(key);
    OrderRecorded(m, key, "");
    ReversedLaws(m.Order(key));
    forall j | 0 <= j < |ids| ensures ids[j] in records {
      OrderRecorded(m, key, ids[j]);
    }
    ItemsOfAll(key, ids, records);
  }

  lemma {:induction false} SamePages(m: Mem, s: Sql, q: ListQuery, before: Option<string>, rounds: nat)
    requires Matches(m, s) && Scoped(q)
    ensures SqlPages(s, q, before, rounds) == Pages(m, q, before, rounds)
    decreases rounds
  {
    hide MemList, SqlList, Matches;
    if rounds > 0 {
      ListAgrees(m, s, q.(before := before));
      var page := MemList(m, q.(before := before));
      if page != [] {
        SamePages(m, s, q, Some(page[|page| - 1].cid), rounds - 1);
      }
    }
  }

  /** An empty id cannot be a cursor: a reader that is left with one starts over, and never ends. */
  lemma EmptyIdLoops(rounds: nat)
    ensures var m := MemRun(EMPTY_MEM, [Put("t", Some(""), "", None, "", "", None)]);
            |Pages(m, ListQuery(Some("t"), Some(""), None, Some(1)), None, rounds)| == rounds
  {
    var op := Put("t", Some(""), "", None, "", "", None);
    var m := MemRun(EMPTY_MEM, [op]);
    assert [op][1..] == [] && MemRun(MemStep(EMPTY_MEM, op), []) == MemStep(EMPTY_MEM, op);
    var q := ListQuery(Some("t"), Some(""), None, Some(1));
    EmptyIdPage(m, None);
    EmptyIdPage(m, Some(""));
    EmptyIdRounds(m, q, None, rounds);
  }

  lemma EmptyIdPage(m: Mem, before: Option<string>)
    requires m == MemStep(EMPTY_MEM, Put("t", Some(""), "", None, "", "", None))
    requires before == None || before == Some("")
    ensures MemList(m, ListQuery(Some("t"), Some(""), before, Some(1))) == [Item("t", "", "", None, "", "")]
  {
    var key := Key("t", "");
    assert m.Order(key) == [""] && Reverse([""]) == [""] && [""][1..] == [];
    MemListOneKey(m, key, before, Some(1));
  }

  lemma {:induction false} EmptyIdRounds(m: Mem, q: ListQuery, before: Option<string>, rounds: nat)
    requires MemList(m, q.(before := before)) == [Item("t", "", "", None, "", "")]
    requires MemList(m, q.(before := Some(""))) == [Item("t", "", "", None, "", "")]
    ensures |Pages(m, q, before, rounds)| == rounds
    decreases rounds
  {
    if rounds > 0 {
      EmptyIdRounds(m, q, Some(""), rounds - 1);
    }
  }
}
