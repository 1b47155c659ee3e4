/** Keyed tables whose rows carry counters, and the one rule by which both the client's hash maps
    (`entry().and_modify().or_insert()`) and the server's statements (`ON CONFLICT ... DO UPDATE`) store a row. */
module Upserts {
  import opened Defs

  type Table<R> = map<I64, R>

  /** How rows of one kind are stored: their key, what a stored row becomes when a row with its key arrives,
      and the part of a row that is not a counter. */
  datatype Rule<!R> = Rule(key: R -> I64, add: (R, R) -> R, shape: R -> R)

  const FRAMES: Rule<StackNodeData> :=
    Rule((r: StackNodeData) => r.id,
         (x: StackNodeData, y: StackNodeData) => x,
         (r: StackNodeData) => r)

  const NODES: Rule<StackNode> :=
    Rule((r: StackNode) => r.id,
         (x: StackNode, y: StackNode) => x.(sample_count := x.sample_count + y.sample_count),
         (r: StackNode) => r.(sample_count := 0))

  const EXECUTABLES: Rule<Executable> :=
    Rule((r: Executable) => r.id,
         (x: Executable, y: Executable) =>
           x.(sample_count := x.sample_count + y.sample_count,
              raw_data_size := x.raw_data_size + y.raw_data_size,
              processed_data_size := x.processed_data_size + y.processed_data_size),
         (r: Executable) => r.(sample_count := 0, raw_data_size := 0, processed_data_size := 0))

  /** Adding is associative, keeps the key and the shape of the stored row, and is commutative on rows of one
      shape. */
  ghost predicate Lawful<R(!new)>(rule: Rule<R>) {
    && (forall x, y :: rule.shape(rule.add(x, y)) == rule.shape(x))
    && (forall x, y :: rule.key(rule.add(x, y)) == rule.key(x))
    && (forall x, y, z :: rule.add(rule.add(x, y), z) == rule.add(x, rule.add(y, z)))
    && (forall x, y :: rule.shape(x) == rule.shape(y) ==> rule.add(x, y) == rule.add(y, x))
  }

  lemma FramesAreLawful()
    ensures Lawful(FRAMES)
  {
  }

  lemma NodesAreLawful()
    ensures Lawful(NODES)
  {
  }

  lemma ExecutablesAreLawful()
    ensures Lawful(EXECUTABLES)
  {
  }

  function Upsert<R>(rule: Rule<R>, t: Table<R>, r: R): Table<R> {
    var k := rule.key(r);
    t[k := if k in t then rule.add(t[k], r) else r]
  }

  function UpsertAll<R>(rule: Rule<R>, t: Table<R>, rows: seq<R>): Table<R> {
    if rows == [] then t
    else Upsert(rule, UpsertAll(rule, t, rows[..|rows| - 1]), rows[|rows| - 1])
  }

  /** Adds every row of m to t. */
  function Merge<R>(rule: Rule<R>, t: Table<R>, m: Table<R>): Table<R> {
    map k | k in t.Keys + m.Keys ::
      if k !in m then t[k] else if k !in t then m[k] else rule.add(t[k], m[k])
  }

  predicate DistinctKeys<R>(rule: Rule<R>, rows: seq<R>) {
    forall i, j :: 0 <= i < j < |rows| ==> rule.key(rows[i]) != rule.key(rows[j])
  }

  /** Every row is stored under its own key. */
  ghost predicate KeyedBy<R(!new)>(rule: Rule<R>, t: Table<R>) {
    forall k :: k in t ==> rule.key(t[k]) == k
  }

  /** The rows are the values of m, each once, in some order. */
  predicate Enumerates<R(==)>(rule: Rule<R>, rows: seq<R>, m: Table<R>) {
    && DistinctKeys(rule, rows)
    && (forall k :: k in m ==> m[k] in rows && rule.key(m[k]) == k)
    && (forall i :: 0 <= i < |rows| ==> rule.key(rows[i]) in m && m[rule.key(rows[i])] == rows[i])
  }

  /** The values of a hash map, in an arbitrary order. */
  method Values<R(==, !new)>(rule: Rule<R>, m: Table<R>) returns (rows: seq<R>)
    requires KeyedBy(rule, m)
    ensures Enumerates(rule, rows, m)
  {
    rows := [];
    var rest := m.Keys;
    while rest != {}
      invariant rest <= m.Keys
      invariant DistinctKeys(rule, rows)
      invariant forall k :: k in m && k !in rest ==> m[k] in rows
      invariant forall i :: 0 <= i < |rows| ==>
                  rule.key(rows[i]) in m && rule.key(rows[i]) !in rest && m[rule.key(rows[i])] == rows[i]
    {
      var k :| k in rest;
      ghost var was := rows;
      rows := rows + [m[k]];
      rest := rest - {k};
      assert rows[|was|] == m[k];
      assert forall r :: r in was ==> r in rows;
    }
  }

  /** The map collected from rows by their own ids; of rows with one id the last stays (src/defs.rs:118-134). */
  function Collect<R>(rule: Rule<R>, rows: seq<R>): Table<R> {
    if rows == [] then map[]
    else Collect(rule, rows[..|rows| - 1])[rule.key(rows[|rows| - 1]) := rows[|rows| - 1]]
  }

  lemma {:induction false} CollectMeaning<R(!new)>(rule: Rule<R>, rows: seq<R>)
    ensures var m := Collect(rule, rows);
            && (forall r :: r in rows ==> rule.key(r) in m)
            && (forall k :: k in m ==> m[k] in rows && rule.key(m[k]) == k)
  {
    if rows != [] {
      var n := |rows| - 1;
      CollectMeaning(rule, rows[..n]);
      assert rows == rows[..n] + [rows[n]];
    }
  }

  /** A map is what is collected from its values. */
  lemma {:induction false} CollectEnumeration<R(!new)>(rule: Rule<R>, rows: seq<R>, m: Table<R>)
    requires Enumerates(rule, rows, m)
    ensures Collect(rule, rows) == m
  {
    CollectMeaning(rule, rows);
    var c := Collect(rule, rows);
    forall k | k in c ensures k in m && c[k] == m[k] {
      var i :| 0 <= i < |rows| && rows[i] == c[k];
      assert rule.key(rows[i]) == k;
    }
    forall k | k in m ensures k in c {
      assert m[k] in rows;
    }
  }

  // ----- Folding and merging -----

  lemma {:induction false} UpsertAllAppend<R>(rule: Rule<R>, t: Table<R>, xs: seq<R>, ys: seq<R>)
    ensures UpsertAll(rule, t, xs + ys) == UpsertAll(rule, UpsertAll(rule, t, xs), ys)
  {
    if ys == [] {
      assert xs + ys == xs;
    } else {
      var n := |ys| - 1;
      assert (xs + ys)[..|xs + ys| - 1] == xs + ys[..n];
      UpsertAllAppend(rule, t, xs, ys[..n]);
    }
  }

  /** Folding rows into a table is the same as tallying the rows on their own and merging the tally. */
  lemma {:induction false} UpsertAllIsMerge<R(!new)>(rule: Rule<R>, t: Table<R>, rows: seq<R>)
    requires Lawful(rule)
    ensures UpsertAll(rule, t, rows) == Merge(rule, t, UpsertAll(rule, map[], rows))
  {
    if rows != [] {
      UpsertAllIsMerge(rule, t, rows[..|rows| - 1]);
    }
  }

  /** Rows stored under one key have one shape. */
  predicate Agree<R(==)>(rule: Rule<R>, a: Table<R>, b: Table<R>) {
    forall k :: k in a && k in b ==> rule.shape(a[k]) == rule.shape(b[k])
  }

  lemma MergeSwaps<R(!new)>(rule: Rule<R>, t: Table<R>, a: Table<R>, b: Table<R>)
    requires Lawful(rule) && Agree(rule, a, b)
    ensures Merge(rule, Merge(rule, t, a), b) == Merge(rule, Merge(rule, t, b), a)
  {
  }

  /** Tallying an enumeration of a table gives the table back. */
  lemma {:induction false} EnumerationTallies<R>(rule: Rule<R>, rows: seq<R>)
    requires DistinctKeys(rule, rows)
    ensures var t := UpsertAll(rule, map[], rows);
            && (forall i :: 0 <= i < |rows| ==> rule.key(rows[i]) in t && t[rule.key(rows[i])] == rows[i])
            && (forall k :: k in t ==> exists i :: 0 <= i < |rows| && rule.key(rows[i]) == k)
  {
    if rows != [] {
      EnumerationTallies(rule, rows[..|rows| - 1]);
      var t := UpsertAll(rule, map[], rows);
      forall k | k in t
        ensures exists i :: 0 <= i < |rows| && rule.key(rows[i]) == k
      {
        if k == rule.key(rows[|rows| - 1]) {
        } else {
          var i :| 0 <= i < |rows| - 1 && rule.key(rows[..|rows| - 1][i]) == k;
          assert rule.key(rows[i]) == k;
        }
      }
    }
  }

  lemma {:induction false} EnumerationIsTally<R>(rule: Rule<R>, rows: seq<R>, m: Table<R>)
    requires Enumerates(rule, rows, m)
    ensures UpsertAll(rule, map[], rows) == m
  {
    EnumerationTallies(rule, rows);
    var u := UpsertAll(rule, map[], rows);
    forall k | k in m ensures k in u && u[k] == m[k] {
      var i :| 0 <= i < |rows| && rows[i] == m[k];
      assert rule.key(rows[i]) == k;
    }
  }

  /** Every stored row has the key it is stored under and the shape of a row that arrived. */
  lemma {:induction false} TallyProvenance<R(!new)>(rule: Rule<R>, rows: seq<R>)
    requires Lawful(rule)
    ensures var t := UpsertAll(rule, map[], rows);
            && (forall i :: 0 <= i < |rows| ==> rule.key(rows[i]) in t)
            && KeyedBy(rule, t)
            && (forall k :: k in t ==>
                  exists i :: 0 <= i < |rows| && rule.key(rows[i]) == k && rule.shape(rows[i]) == rule.shape(t[k]))
  {
    if rows != [] {
      var n := |rows| - 1;
      TallyProvenance(rule, rows[..n]);
      var s, t := UpsertAll(rule, map[], rows[..n]), UpsertAll(rule, map[], rows);
      forall k | k in t
        ensures exists i :: 0 <= i < |rows| && rule.key(rows[i]) == k && rule.shape(rows[i]) == rule.shape(t[k])
      {
        if k in s {
          var i :| 0 <= i < n && rule.key(rows[..n][i]) == k && rule.shape(rows[..n][i]) == rule.shape(s[k]);
          assert rule.key(rows[i]) == k && rule.shape(rows[i]) == rule.shape(t[k]);
        } else {
          assert rule.key(rows[n]) == k && rule.shape(rows[n]) == rule.shape(t[k]);
        }
      }
      forall i | 0 <= i < |rows| ensures rule.key(rows[i]) in t {
        assert i < n ==> rows[i] == rows[..n][i];
      }
    }
  }

  // ----- Ledgers: which of many tables have been merged, whatever the order -----

  /** The tables whose flag is on, merged in index order. */
  function Ledger<R>(rule: Rule<R>, ms: seq<Table<R>>, on: seq<bool>): Table<R>
    requires |ms| == |on|
  {
    if ms == [] then map[]
    else
      var n := |ms| - 1;
      var t := Ledger(rule, ms[..n], on[..n]);
      if on[n] then Merge(rule, t, ms[n]) else t
  }

  predicate AllAgree<R(==)>(rule: Rule<R>, ms: seq<Table<R>>) {
    forall i, j :: 0 <= i < |ms| && 0 <= j < |ms| ==> Agree(rule, ms[i], ms[j])
  }

  /** Merging one more table is the same as switching its flag on, wherever it stands in the order. */
  lemma {:induction false} LedgerPosts<R(!new)>(rule: Rule<R>, ms: seq<Table<R>>, on: seq<bool>, i: nat)
    requires Lawful(rule) && AllAgree(rule, ms)
    requires |ms| == |on| && i < |ms| && !on[i]
    ensures Ledger(rule, ms, on[i := true]) == Merge(rule, Ledger(rule, ms, on), ms[i])
  {
    var n := |ms| - 1;
    if i == n {
      assert on[i := true][..n] == on[..n];
    } else {
      LedgerPosts(rule, ms[..n], on[..n], i);
      assert on[i := true][..n] == on[..n][i := true];
      if on[n] {
        MergeSwaps(rule, Ledger(rule, ms[..n], on[..n]), ms[i], ms[n]);
      }
    }
  }

  // ----- Sums over a table -----

  ghost function Total<R>(t: Table<R>, weight: R -> int): int {
    if t == map[] then 0
    else var k :| k in t; weight(t[k]) + Total(t - {k}, weight)
  }

  lemma {:induction false} TotalSplits<R>(t: Table<R>, weight: R -> int, k: I64)
    requires k in t
    ensures Total(t, weight) == weight(t[k]) + Total(t - {k}, weight)
  {
    var j :| j in t && Total(t, weight) == weight(t[j]) + Total(t - {j}, weight);
    if j != k {
      TotalSplits(t - {j}, weight, k);
      TotalSplits(t - {k}, weight, j);
      assert t - {j} - {k} == t - {k} - {j};
    }
  }

  lemma TotalUpdates<R>(t: Table<R>, weight: R -> int, k: I64, r: R)
    ensures Total(t[k := r], weight) == Total(t, weight) - (if k in t then weight(t[k]) else 0) + weight(r)
  {
    TotalSplits(t[k := r], weight, k);
    if k in t {
      TotalSplits(t, weight, k);
      assert t[k := r] - {k} == t - {k};
    } else {
      assert t[k := r] - {k} == t;
    }
  }

  function SumRows<R>(rows: seq<R>, weight: R -> int): int {
    if rows == [] then 0 else SumRows(rows[..|rows| - 1], weight) + weight(rows[|rows| - 1])
  }

  /** Adding rows of one key keeps the key and adds up their weights. */
  ghost predicate Additive<R(!new)>(rule: Rule<R>, weight: R -> int) {
    forall x, y :: rule.key(x) == rule.key(y) ==>
      rule.key(rule.add(x, y)) == rule.key(x) && weight(rule.add(x, y)) == weight(x) + weight(y)
  }

  /** Upserts neither lose nor double any weight. */
  lemma {:induction false} UpsertAllConserves<R(!new)>(rule: Rule<R>, t: Table<R>, rows: seq<R>, weight: R -> int)
    requires Additive(rule, weight) && KeyedBy(rule, t)
    ensures KeyedBy(rule, UpsertAll(rule, t, rows))
    ensures Total(UpsertAll(rule, t, rows), weight) == Total(t, weight) + SumRows(rows, weight)
  {
    if rows != [] {
      var n := |rows| - 1;
      UpsertAllConserves(rule, t, rows[..n], weight);
      var u, r := UpsertAll(rule, t, rows[..n]), rows[n];
      var k := rule.key(r);
      TotalUpdates(u, weight, k, if k in u then rule.add(u[k], r) else r);
    }
  }

  /** So an enumeration of a tally weighs as much as the rows that were tallied. */
  lemma {:induction false} EnumerationConserves<R(!new)>(rule: Rule<R>, rows: seq<R>, m: Table<R>, weight: R -> int)
    requires Additive(rule, weight) && Enumerates(rule, rows, m)
    ensures SumRows(rows, weight) == Total(m, weight)
  {
    EnumerationIsTally(rule, rows, m);
    UpsertAllConserves(rule, map[], rows, weight);
  }
}
