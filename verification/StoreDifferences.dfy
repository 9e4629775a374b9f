/** Where the two stores part: exactly outside the scoped queries. */
module StoreDifferences {
  import opened Seqs
  import opened CheckpointStore
  import opened StoreBisimulation

  /** Both stores list the same for this query, whatever was put before. */
  ghost predicate AgreesAlways(q: ListQuery) {
    forall ops: seq<Op> :: MemList(MemRun(EMPTY_MEM, ops), q) == SqlList(SqlRun(EMPTY_SQL, ops), q)
  }

  function PutOp(thread: string, ns: string, cid: string): Op {
    Put(thread, Some(ns), cid, None, "", "", None)
  }

  const BLANK: Record := Record(None, "", "", "{}")

  function Blank(thread: string, ns: string, cid: string): Item {
    Item(thread, ns, cid, None, "", "")
  }

  /** Two ids a cursor does not name. */
  function FreshIds(before: Option<string>): (ids: (string, string))
    ensures ids.0 != ids.1 && before != Some(ids.0) && before != Some(ids.1)
  {
    var avoid := if before.Some? then before.value else "";
    assert |avoid + "a"| == |avoid| + 1 == |avoid + "b"|;
    assert (avoid + "a")[|avoid|] == 'a' && (avoid + "b")[|avoid|] == 'b';
    (avoid + "a", avoid + "b")
  }

  lemma RunTwo(m: Mem, s: Sql, a: Op, b: Op)
    ensures MemRun(m, [a, b]) == MemStep(MemStep(m, a), b) && SqlRun(s, [a, b]) == SqlStep(SqlStep(s, a), b)
  {
    hide MemStep, SqlStep;
    var ops := [a, b];
    assert ops[1..] == [b] && [b][1..] == [];
    assert MemRun(MemStep(m, a), [b]) == MemRun(MemStep(MemStep(m, a), b), []);
    assert SqlRun(SqlStep(s, a), [b]) == SqlRun(SqlStep(SqlStep(s, a), b), []);
  }

  lemma MemTwo(t: string, n1: string, c1: string, n2: string, c2: string)
    requires n1 != n2 || c1 != c2
    ensures var m := MemRun(EMPTY_MEM, [PutOp(t, n1, c1), PutOp(t, n2, c2)]);
            var k1, k2 := Key(t, n1), Key(t, n2);
            && m.keys == (if n1 == n2 then [k1] else [k1, k2])
            && m.order == (if n1 == n2 then map[k1 := [c1, c2]] else map[k1 := [c1], k2 := [c2]])
            && m.records == (if n1 == n2 then map[k1 := map[c1 := BLANK, c2 := BLANK]]
                             else map[k1 := map[c1 := BLANK], k2 := map[c2 := BLANK]])
  {
    RunTwo(EMPTY_MEM, EMPTY_SQL, PutOp(t, n1, c1), PutOp(t, n2, c2));
    var k1, k2 := Key(t, n1), Key(t, n2);
    var m1 := MemStep(EMPTY_MEM, PutOp(t, n1, c1));
    assert RemoveFirst([], c1) + [c1] == [c1] && RemoveFirst([], c2) + [c2] == [c2];
    assert c1 != c2 ==> RemoveFirst([c1], c2) + [c2] == [c1, c2];
    assert m1.keys == [k1];
    assert m1.order == map[k1 := [c1]];
    assert m1.records == map[k1 := map[c1 := BLANK]];
    assert m1.Order(k2) == if n1 == n2 then [c1] else [];
    assert m1.Records(k2) == if n1 == n2 then map[c1 := BLANK] else map[];
  }

  lemma FilterPair<T>(a: T, b: T, p: T -> bool)
    ensures Filter([a, b], p) == (if p(a) then [a] else []) + (if p(b) then [b] else [])
    ensures Filter([a], p) == if p(a) then [a] else []
  {
    assert [a, b][1..] == [b] && [b][1..] == [] && [a][1..] == [];
    assert Filter<T>([], p) == [];
    assert Filter([b], p) == if p(b) then [b] else [];
  }

  lemma SqlTwo(t: string, n1: string, c1: string, n2: string, c2: string)
    requires n1 != n2 || c1 != c2
    ensures SqlRun(EMPTY_SQL, [PutOp(t, n1, c1), PutOp(t, n2, c2)]).checkpoints.rows ==
            [Row(1, CkRow(Key(t, n1), c1, BLANK)), Row(2, CkRow(Key(t, n2), c2, BLANK))]
  {
    RunTwo(EMPTY_MEM, EMPTY_SQL, PutOp(t, n1, c1), PutOp(t, n2, c2));
    var s1 := SqlStep(EMPTY_SQL, PutOp(t, n1, c1));
    var r1 := Row(1, CkRow(Key(t, n1), c1, BLANK));
    assert s1.checkpoints == Table([r1], 1);
    FilterPair(r1, r1, NotRow(Key(t, n2), c2));
  }

  lemma SqlListTwo(s: Sql, q: ListQuery, r1: Row<CkRow>, r2: Row<CkRow>)
    requires s.checkpoints.rows == [r1, r2] && r1.seqno < r2.seqno
    requires q.before.None? || (r1.data.cid != q.before.value && r2.data.cid != q.before.value)
    ensures var w := Where(q, None);
            SqlList(s, q) == Map(Limit((if w(r2) then [r2] else []) + (if w(r1) then [r1] else []), q.limit), RowItem)
  {
    if q.thread.Some? && q.before.Some? {
      FilterPair(r1, r2, OfRow(Key(q.thread.value, NsOf(q.ns)), q.before.value));
    }
    assert CursorSeq(s, q) == None;
    OrderPair(r1, r2, Where(q, None));
  }

  lemma OrderPair(r1: Row<CkRow>, r2: Row<CkRow>, w: Row<CkRow> -> bool)
    requires r1.seqno < r2.seqno
    ensures OrderDesc(Filter([r1, r2], w)) == (if w(r2) then [r2] else []) + (if w(r1) then [r1] else [])
  {
    FilterPair(r1, r2, w);
    hide Filter;
    var kept := Filter([r1, r2], w);
    assert Ascending(kept, r2.seqno);
    DescIsReverse(kept, r2.seqno);
    assert Reverse(kept) == (if w(r2) then [r2] else []) + (if w(r1) then [r1] else []);
  }

  lemma UnscopedNamespace(q: ListQuery)
    requires q.thread.Some? && q.ns.None? && (q.limit.None? || q.limit.value >= 1)
    ensures !AgreesAlways(q)
  {
    var ids := FreshIds(q.before);
    var t := q.thread.value;
    var ops := [PutOp(t, "x", ids.0), PutOp(t, "x", ids.1)];
    MemTwo(t, "x", ids.0, "x", ids.1);
    SqlTwo(t, "x", ids.0, "x", ids.1);
    var m, s := MemRun(EMPTY_MEM, ops), SqlRun(EMPTY_SQL, ops);
    SqlListTwo(s, q, s.checkpoints.rows[0], s.checkpoints.rows[1]);
    MemListOneKey(m, Key(t, ""), q.before, q.limit);
    assert MemList(m, q) == [];
    assert |SqlList(s, q)| >= 1;
  }

  lemma ItemsPair(key: Key, a: string, b: string, records: map<string, Record>)
    requires a in records && b in records && records[a] == records[b] == BLANK
    ensures ItemsOf(key, [a], records) == [Blank(key.thread, key.ns, a)]
    ensures ItemsOf(key, [b, a], records) == [Blank(key.thread, key.ns, b), Blank(key.thread, key.ns, a)]
  {
    assert [b, a][1..] == [a] && [a][1..] == [];
    assert ItemsOf(key, [], records) == [];
  }

  lemma MemItemsTwo(m: Mem, key: Key, c1: string, c2: string, before: Option<string>)
    requires c1 != c2 && m.Order(key) == [c1, c2] && m.Records(key) == map[c1 := BLANK, c2 := BLANK]
    requires before != Some(c1) && before != Some(c2)
    ensures KeyItems(m, key, before) == [Blank(key.thread, key.ns, c2), Blank(key.thread, key.ns, c1)]
  {
    var back := Reverse([c1, c2]);
    assert back == [c2, c1];
    assert AfterCursor(back, before) == back;
    ItemsPair(key, c1, c2, m.Records(key));
  }

  lemma MemItemsOne(m: Mem, key: Key, c: string, before: Option<string>)
    requires m.Order(key) == [c] && m.Records(key) == map[c := BLANK] && before != Some(c)
    ensures KeyItems(m, key, before) == [Blank(key.thread, key.ns, c)]
  {
    var back := Reverse([c]);
    assert back == [c];
    assert AfterCursor(back, before) == back;
    ItemsPair(key, c, c, m.Records(key));
  }

  /** With a limit below one the in-memory store still lists one item; SQL lists none for 0 and all for less. */
  lemma LimitBelowOne(q: ListQuery)
    requires q.limit.Some? && q.limit.value < 1
    ensures !AgreesAlways(q)
  {
    var ids := FreshIds(q.before);
    var t := if q.thread.Some? then q.thread.value else "t";
    var n := if q.thread.Some? then NsOf(q.ns) else "";
    var ops := [PutOp(t, n, ids.0), PutOp(t, n, ids.1)];
    MemTwo(t, n, ids.0, n, ids.1);
    SqlTwo(t, n, ids.0, n, ids.1);
    var m, s := MemRun(EMPTY_MEM, ops), SqlRun(EMPTY_SQL, ops);
    SqlListTwo(s, q, s.checkpoints.rows[0], s.checkpoints.rows[1]);
    MemItemsTwo(m, Key(t, n), ids.0, ids.1, q.before);
    assert MemList(m, q) == MemListKeys(m, [Key(t, n)], q.before, q.limit, 0);
    assert |MemList(m, q)| == 1;
    assert |SqlList(s, q)| != 1;
  }

  lemma FirstListed(m: Mem, key: Key, rest: seq<Key>, before: Option<string>, limit: Option<int>)
    requires key in m.order && KeyItems(m, key, before) != [] && (limit.None? || limit.value >= 1)
    ensures var l := MemListKeys(m, [key] + rest, before, limit, 0); l != [] && l[0] == KeyItems(m, key, before)[0]
  {
    hide KeyItems;
    assert ([key] + rest)[1..] == rest;
  }

  lemma SqlFirstListed(s: Sql, q: ListQuery, r1: Row<CkRow>, r2: Row<CkRow>)
    requires s.checkpoints.rows == [r1, r2] && r1.seqno < r2.seqno
    requires q.before.None? || (r1.data.cid != q.before.value && r2.data.cid != q.before.value)
    requires q.thread.None? && (q.limit.None? || q.limit.value >= 1)
    ensures SqlList(s, q) != [] && SqlList(s, q)[0] == RowItem(r2)
  {
    hide SqlList;
    SqlListTwo(s, q, r1, r2);
    assert [r2] + [r1] == [r2, r1];
  }

  /** Without a thread the in-memory store goes key by key, SQL by age over all keys. */
  lemma UnscopedThread(q: ListQuery)
    requires q.thread.None? && (q.limit.None? || q.limit.value >= 1)
    ensures !AgreesAlways(q)
  {
    hide MemRun, SqlRun, MemListKeys, KeyItems, SqlList;
    var ids := FreshIds(q.before);
    var ops := [PutOp("t", "x", ids.0), PutOp("t", "y", ids.1)];
    MemTwo("t", "x", ids.0, "y", ids.1);
    SqlTwo("t", "x", ids.0, "y", ids.1);
    var m, s := MemRun(EMPTY_MEM, ops), SqlRun(EMPTY_SQL, ops);
    SqlFirstListed(s, q, s.checkpoints.rows[0], s.checkpoints.rows[1]);
    MemItemsOne(m, Key("t", "x"), ids.0, q.before);
    FirstListed(m, Key("t", "x"), [Key("t", "y")], q.before, q.limit);
    assert [Key("t", "x")] + [Key("t", "y")] == m.keys;
    assert MemList(m, q)[0].ns == "x" && SqlList(s, q)[0].ns == "y";
  }

  /** The stores agree on a list query over all histories exactly when it names a thread and a namespace and has
      no limit or one of at least 1. */
  lemma ListAgreementIff(q: ListQuery)
    ensures AgreesAlways(q) <==> Scoped(q)
  {
    if Scoped(q) {
      forall ops: seq<Op> ensures MemList(MemRun(EMPTY_MEM, ops), q) == SqlList(SqlRun(EMPTY_SQL, ops), q) {
        StoresAgree(ops, GetQuery("", None, None), q);
      }
    } else if q.limit.Some? && q.limit.value < 1 {
      LimitBelowOne(q);
    } else if q.thread.None? {
      UnscopedThread(q);
    } else {
      UnscopedNamespace(q);
    }
  }
}
