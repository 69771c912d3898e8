/** The sufficient statistics of the backbone: Gram and cross-term matrices, per flight, aggregated, and in one pass. */
module GramAccumulation {
  import opened Sums
  import opened Sorting
  import opened LinearAlgebra
  import opened RidgeSolve

  /** A window feature row. The vector may be absent, may lack a sensor, and may hold a null for it. */
  datatype Window = Window(tailId: string, flightId: string, winId: int, vector: Option<map<string, Option<real>>>)

  type FlightKey = (string, string)

  const FlightOf: Window -> FlightKey := (w: Window) => (w.tailId, w.flightId)

  /** A missing sensor and a null both read as zero. */
  function Reading(vector: map<string, Option<real>>, sensor: string): real {
    if sensor in vector && vector[sensor].Some? then vector[sensor].value else 0.0
  }

  function SensorVector(vector: map<string, Option<real>>, sensors: seq<string>): (x: Vector)
    ensures |x| == |sensors|
  {
    seq(|sensors|, i requires 0 <= i < |sensors| => Reading(vector, sensors[i]))
  }

  /** What one window adds to the entry for two sensors; a window without a vector adds nothing. */
  ghost function Contribution(u: string, v: string): Window -> real {
    (w: Window) => if w.vector.None? then 0.0 else Times(Reading(w.vector.value, u), Reading(w.vector.value, v))
  }

  ghost const Presence: Window -> real := (w: Window) => if w.vector.None? then 0.0 else 1.0

  /** The entry for two sensors: the sum over all windows of the product of their readings. */
  ghost function PairSum(ws: seq<Window>, u: string, v: string): real {
    SumOver(ws, Contribution(u, v))
  }

  ghost function PairMatrix(ws: seq<Window>, rows: seq<string>, columns: seq<string>): (a: Matrix)
    ensures Shape(a, |rows|, |columns|)
  {
    seq(|rows|, i requires 0 <= i < |rows| =>
      seq(|columns|, j requires 0 <= j < |columns| => PairSum(ws, rows[i], columns[j])))
  }

  // ---------- One flight ----------

  /** Adds the outer product of a window's readings to a matrix that sums over the windows before it. */
  method AddOuter(g: array2<real>, w: Window, rows: seq<string>, columns: seq<string>, ghost ws: seq<Window>)
    requires w.vector.Some? && g.Length0 == |rows| && g.Length1 == |columns|
    requires Stores(g, PairMatrix(ws, rows, columns))
    modifies g
    ensures Stores(g, PairMatrix(ws + [w], rows, columns))
  {
    var x, y := SensorVector(w.vector.value, rows), SensorVector(w.vector.value, columns);
    forall i, j | 0 <= i < |rows| && 0 <= j < |columns| {
      g[i, j] := g[i, j] + Times(x[i], y[j]);
    }
    forall i, j | 0 <= i < |rows| && 0 <= j < |columns|
      ensures PairSum(ws + [w], rows[i], columns[j]) == PairSum(ws, rows[i], columns[j]) + Times(x[i], y[j])
    {
      SumAppend(ws, w, Contribution(rows[i], columns[j]));
    }
  }

  /** A window without a vector leaves every sum as it was. */
  lemma AbsentAddsNothing(ws: seq<Window>, w: Window, rows: seq<string>, columns: seq<string>)
    requires w.vector.None?
    ensures PairMatrix(ws + [w], rows, columns) == PairMatrix(ws, rows, columns)
  {
    forall i, j | 0 <= i < |rows| && 0 <= j < |columns|
      ensures PairSum(ws + [w], rows[i], columns[j]) == PairSum(ws, rows[i], columns[j])
    {
      SumAppend(ws, w, Contribution(rows[i], columns[j]));
    }
    assert forall i :: 0 <= i < |rows| ==> PairMatrix(ws + [w], rows, columns)[i] == PairMatrix(ws, rows, columns)[i];
  }

  method AccumulateFlight(items: seq<Window>, selected: seq<string>, sensors: seq<string>)
    returns (g: array2<real>, h: array2<real>, windowCount: nat)
    ensures fresh(g) && fresh(h) && g != h
    ensures g.Length0 == g.Length1 == h.Length0 == |selected| && h.Length1 == |sensors|
    ensures Stores(g, PairMatrix(items, selected, selected))
    ensures Stores(h, PairMatrix(items, selected, sensors))
    ensures windowCount as real == SumOver(items, Presence)
  {
    g := new real[|selected|, |selected|]((i, j) => 0.0);
    h := new real[|selected|, |sensors|]((i, j) => 0.0);
    windowCount := 0;
    for t := 0 to |items|
      invariant g.Length0 == g.Length1 == h.Length0 == |selected| && h.Length1 == |sensors|
      invariant Stores(g, PairMatrix(items[..t], selected, selected))
      invariant Stores(h, PairMatrix(items[..t], selected, sensors))
      invariant windowCount as real == SumOver(items[..t], Presence)
    {
      hide Stores, PairMatrix;
      var item := items[t];
      assert items[..t + 1] == items[..t] + [item];
      SumAppend(items[..t], item, Presence);
      if item.vector.Some? {
        AddOuter(g, item, selected, selected, items[..t]);
        AddOuter(h, item, selected, sensors, items[..t]);
        windowCount := windowCount + 1;
      } else {
        AbsentAddsNothing(items[..t], item, selected, selected);
        AbsentAddsNothing(items[..t], item, selected, sensors);
      }
    }
    assert items[..|items|] == items;
  }

  // ---------- All flights ----------

  predicate KeyLe(a: FlightKey, b: FlightKey) {
    if a.0 == b.0 then LexLe(a.1, b.1) else LexLe(a.0, b.0)
  }

  lemma KeyLeIsTotalPreorder()
    ensures TotalPreorder(KeyLe)
  {
    LexIsTotalPreorder();
    forall a: FlightKey, b: FlightKey, c: FlightKey | KeyLe(a, b) && KeyLe(b, c)
      ensures KeyLe(a, c)
    {
      LexTotal(a.0, b.0);
      LexTotal(b.0, c.0);
      LexTotal(a.0, c.0);
    }
  }

  ghost predicate HasFlight(ws: seq<Window>, key: FlightKey) {
    exists w :: w in ws && FlightOf(w) == key
  }

  lemma HasFlightAppend(ws: seq<Window>, w: Window, key: FlightKey)
    ensures HasFlight(ws + [w], key) <==> HasFlight(ws, key) || key == FlightOf(w)
    ensures Group(ws + [w], FlightOf, key) == Group(ws, FlightOf, key) + if FlightOf(w) == key then [w] else []
  {
    assert (ws + [w])[..|ws|] == ws;
    assert w in ws + [w];
  }

  lemma SortedKeys(keys: seq<FlightKey>)
    requires Distinct(keys)
    ensures Distinct(Sort(keys, KeyLe)) && SortedBy(Sort(keys, KeyLe), KeyLe)
    ensures forall key :: key in Sort(keys, KeyLe) <==> key in keys
  {
    var order := Sort(keys, KeyLe);
    KeyLeIsTotalPreorder();
    SortSorts(keys, KeyLe);
    SortPermutes(keys, KeyLe);
    DistinctPermutes(keys, order);
    assert forall key :: key in order <==> key in multiset(order);
  }

  /** The distinct flights of the windows, each with its windows in order of appearance. */
  method GroupByFlight(windows: seq<Window>) returns (order: seq<FlightKey>, byFlight: map<FlightKey, seq<Window>>)
    ensures Distinct(order) && SortedBy(order, KeyLe)
    ensures forall key :: key in order <==> HasFlight(windows, key)
    ensures forall key :: key in order ==> key in byFlight && byFlight[key] == Group(windows, FlightOf, key)
  {
    hide HasFlight, Group;
    var seen: seq<FlightKey> := [];
    byFlight := map[];
    NoFlights();
    for t := 0 to |windows|
      invariant Distinct(seen) && forall key :: key in seen <==> key in byFlight
      invariant forall key :: key in seen <==> HasFlight(windows[..t], key)
      invariant forall key :: key in byFlight ==> byFlight[key] == Group(windows[..t], FlightOf, key)
    {
      assert windows[..t + 1] == windows[..t] + [windows[t]];
      var key := FlightOf(windows[t]);
      if key !in byFlight {
        NoFlightNoGroup(windows[..t], key);
        seen := seen + [key];
        byFlight := byFlight[key := []];
      }
      byFlight := byFlight[key := byFlight[key] + [windows[t]]];
      forall k
        ensures HasFlight(windows[..t + 1], k) <==> HasFlight(windows[..t], k) || k == key
        ensures Group(windows[..t + 1], FlightOf, k) ==
                Group(windows[..t], FlightOf, k) + if key == k then [windows[t]] else []
      {
        HasFlightAppend(windows[..t], windows[t], k);
      }
    }
    assert windows[..|windows|] == windows;
    order := Sort(seen, KeyLe);
    SortedKeys(seen);
  }

  lemma NoFlights()
    ensures forall key :: !HasFlight([], key)
  {
  }

  lemma NoFlightNoGroup(ws: seq<Window>, key: FlightKey)
    requires !HasFlight(ws, key)
    ensures Group(ws, FlightOf, key) == []
  {
    GroupIsEmpty(ws, FlightOf, key);
  }

  datatype GhRow = GhRow(tailId: string, flightId: string, windowCount: nat, g: array2<real>, h: array2<real>)

  /** The row holds the statistics of exactly these windows. */
  ghost predicate Summarises(row: GhRow, items: seq<Window>, selected: seq<string>, sensors: seq<string>)
    reads row.g, row.h
  {
    && row.g.Length0 == row.g.Length1 == row.h.Length0 == |selected| && row.h.Length1 == |sensors|
    && Stores(row.g, PairMatrix(items, selected, selected))
    && Stores(row.h, PairMatrix(items, selected, sensors))
    && row.windowCount as real == SumOver(items, Presence)
  }

  ghost const RowKey: GhRow -> FlightKey := (row: GhRow) => (row.tailId, row.flightId)

  method ComputeBackboneGhByFlight(windows: seq<Window>, selected: seq<string>, sensors: seq<string>)
    returns (rows: seq<GhRow>, ghost order: seq<FlightKey>)
    ensures forall row :: row in rows ==> fresh(row.g) && fresh(row.h)
    ensures Distinct(order) && SortedBy(order, KeyLe) && |order| == |rows|
    ensures forall key :: key in order <==> HasFlight(windows, key)
    ensures forall k :: 0 <= k < |rows| ==>
              RowKey(rows[k]) == order[k] && Summarises(rows[k], Group(windows, FlightOf, order[k]), selected, sensors)
  {
    var keys, byFlight := GroupByFlight(windows);
    order := keys;
    rows := [];
    for k := 0 to |keys|
      invariant |rows| == k
      invariant forall row :: row in rows ==> fresh(row.g) && fresh(row.h)
      invariant forall i :: 0 <= i < k ==>
                  RowKey(rows[i]) == keys[i]
                    && Summarises(rows[i], Group(windows, FlightOf, keys[i]), selected, sensors)
    {
      var g, h, windowCount := AccumulateFlight(byFlight[keys[k]], selected, sensors);
      rows := rows + [GhRow(keys[k].0, keys[k].1, windowCount, g, h)];
    }
  }

  // ---------- Aggregation over flights ----------

  ghost function EntryAt(i: nat, j: nat): Matrix -> real {
    (a: Matrix) => if i < |a| && j < |a[i]| then a[i][j] else 0.0
  }

  ghost function MatrixSum(ms: seq<Matrix>, n: nat, m: nat): (a: Matrix)
    ensures Shape(a, n, m)
  {
    seq(n, i requires 0 <= i < n => seq(m, j requires 0 <= j < m => SumOver(ms, EntryAt(i, j))))
  }

  /** The array holds the entrywise sum of the matrices. */
  ghost predicate Totals(g: array2<real>, ms: seq<Matrix>, n: nat, m: nat)
    reads g
  {
    g.Length0 == n && g.Length1 == m && Stores(g, MatrixSum(ms, n, m))
  }

  method ZeroMatrix(n: nat, m: nat) returns (g: array2<real>)
    ensures fresh(g) && Totals(g, [], n, m)
  {
    g := new real[n, m]((i, j) => 0.0);
  }

  method AddMatrix(g: array2<real>, x: array2<real>, ghost ms: seq<Matrix>, ghost a: Matrix, ghost n: nat, ghost m: nat)
    requires g != x && x.Length0 == n && x.Length1 == m && Stores(x, a)
    requires Totals(g, ms, n, m)
    modifies g
    ensures Totals(g, ms + [a], n, m)
  {
    forall i, j | 0 <= i < g.Length0 && 0 <= j < g.Length1 {
      g[i, j] := g[i, j] + x[i, j];
    }
    forall i, j | 0 <= i < n && 0 <= j < m
      ensures SumOver(ms + [a], EntryAt(i, j)) == SumOver(ms, EntryAt(i, j)) + a[i][j]
    {
      SumAppend(ms, a, EntryAt(i, j));
    }
  }

  ghost const CountOf: GhRow -> real := (row: GhRow) => row.windowCount as real

  ghost predicate RowStores(row: GhRow, a: Matrix, c: Matrix, n: nat, m: nat)
    reads row.g, row.h
  {
    && row.g.Length0 == row.g.Length1 == row.h.Length0 == n && row.h.Length1 == m
    && Stores(row.g, a) && Stores(row.h, c)
  }

  method AddRow(
    g: array2<real>, h: array2<real>, row: GhRow, ghost gs: seq<Matrix>, ghost hs: seq<Matrix>,
    ghost a: Matrix, ghost c: Matrix, ghost n: nat, ghost m: nat)
    requires g != h && g !in {row.g, row.h} && h !in {row.g, row.h} && RowStores(row, a, c, n, m)
    requires Totals(g, gs, n, n) && Totals(h, hs, n, m)
    modifies g, h
    ensures Totals(g, gs + [a], n, n) && Totals(h, hs + [c], n, m)
  {
    hide Stores, Totals, MatrixSum;
    AddMatrix(g, row.g, gs, a, n, n);
    AddMatrix(h, row.h, hs, c, n, m);
  }

  /** The ghost sequences are the matrices the rows store, `n` by `n` and `n` by `m`. */
  method AggregateBackboneGh(rows: seq<GhRow>, ghost gs: seq<Matrix>, ghost hs: seq<Matrix>, ghost n: nat, ghost m: nat)
    returns (g: array2<real>, h: array2<real>, totalWindows: nat)
    requires |gs| == |hs| == |rows|
    requires forall k :: 0 <= k < |rows| ==> RowStores(rows[k], gs[k], hs[k], n, m)
    ensures fresh(g) && fresh(h)
    ensures rows == [] ==> g.Length0 == g.Length1 == h.Length0 == h.Length1 == 0
    ensures rows != [] ==> Totals(g, gs, n, n) && Totals(h, hs, n, m)
    ensures totalWindows as real == SumOver(rows, CountOf)
  {
    totalWindows := 0;
    if rows == [] {
      g, h := new real[0, 0], new real[0, 0];
      return;
    }
    g := ZeroMatrix(rows[0].g.Length0, rows[0].g.Length1);
    h := ZeroMatrix(rows[0].h.Length0, rows[0].h.Length1);
    for k := 0 to |rows|
      invariant g != h && fresh(g) && fresh(h)
      invariant Totals(g, gs[..k], n, n) && Totals(h, hs[..k], n, m)
      invariant totalWindows as real == SumOver(rows[..k], CountOf)
    {
      hide Stores, Totals, SumOver, MatrixSum, RowStores;
      assert gs[..k + 1] == gs[..k] + [gs[k]] && hs[..k + 1] == hs[..k] + [hs[k]]
        && rows[..k + 1] == rows[..k] + [rows[k]];
      AddRow(g, h, rows[k], gs[..k], hs[..k], gs[k], hs[k], n, m);
      SumAppend(rows[..k], rows[k], CountOf);
      totalWindows := totalWindows + rows[k].windowCount;
    }
    assert gs[..|rows|] == gs && hs[..|rows|] == hs && rows[..|rows|] == rows;
  }

  lemma GroupedEntry<K>(
    ws: seq<Window>, keyOf: Window -> K, order: seq<K>, ms: seq<Matrix>, rows: seq<string>, columns: seq<string>,
    i: nat, j: nat)
    requires Distinct(order) && forall w :: w in ws ==> keyOf(w) in order
    requires |ms| == |order| && i < |rows| && j < |columns|
    requires forall k :: 0 <= k < |order| ==> ms[k] == PairMatrix(Group(ws, keyOf, order[k]), rows, columns)
    ensures MatrixSum(ms, |rows|, |columns|)[i][j] == PairMatrix(ws, rows, columns)[i][j]
  {
    hide SumOver, Group;
    var f := Contribution(rows[i], columns[j]);
    SumByGroups(ws, keyOf, order, f);
    SumMapped(ms, order, EntryAt(i, j), GroupSum(ws, keyOf, f));
  }

  /**
   * Adding up per-flight entries gives the entry over all windows, for every grouping and every order of the groups.
   */
  lemma GroupedMatrixSum<K>(
    ws: seq<Window>, keyOf: Window -> K, order: seq<K>, ms: seq<Matrix>, rows: seq<string>, columns: seq<string>)
    requires Distinct(order) && forall w :: w in ws ==> keyOf(w) in order
    requires |ms| == |order|
    requires forall k :: 0 <= k < |order| ==> ms[k] == PairMatrix(Group(ws, keyOf, order[k]), rows, columns)
    ensures MatrixSum(ms, |rows|, |columns|) == PairMatrix(ws, rows, columns)
  {
    hide SumOver, Group, PairSum, MatrixSum, PairMatrix;
    var sum, whole := MatrixSum(ms, |rows|, |columns|), PairMatrix(ws, rows, columns);
    forall i, j | 0 <= i < |rows| && 0 <= j < |columns|
      ensures sum[i][j] == whole[i][j]
    {
      GroupedEntry(ws, keyOf, order, ms, rows, columns, i, j);
    }
    assert forall i :: 0 <= i < |rows| ==> sum[i] == whole[i];
  }

  ghost function FlightMatrices(
    ws: seq<Window>, order: seq<FlightKey>, rows: seq<string>, columns: seq<string>): (ms: seq<Matrix>)
    ensures |ms| == |order|
    ensures forall k :: 0 <= k < |order| ==> ms[k] == PairMatrix(Group(ws, FlightOf, order[k]), rows, columns)
  {
    seq(|order|, k requires 0 <= k < |order| => PairMatrix(Group(ws, FlightOf, order[k]), rows, columns))
  }

  /** From windows to the aggregated statistics: the flights leave no trace. */
  method BackboneStatistics(windows: seq<Window>, selected: seq<string>, sensors: seq<string>)
    returns (g: array2<real>, h: array2<real>, totalWindows: nat)
    ensures fresh(g) && fresh(h)
    ensures windows == [] ==> g.Length0 == g.Length1 == h.Length0 == h.Length1 == 0
    ensures windows != [] ==> g.Length0 == g.Length1 == h.Length0 == |selected| && h.Length1 == |sensors|
    ensures windows != [] ==>
              Stores(g, PairMatrix(windows, selected, selected)) && Stores(h, PairMatrix(windows, selected, sensors))
    ensures totalWindows as real == SumOver(windows, Presence)
  {
    var rows, order := ComputeBackboneGhByFlight(windows, selected, sensors);
    ghost var gs := FlightMatrices(windows, order, selected, selected);
    ghost var hs := FlightMatrices(windows, order, selected, sensors);
    assert rows == [] <==> windows == [] by {
      EveryFlightListed(windows, order);
    }
    assert forall k :: 0 <= k < |rows| ==> RowStores(rows[k], gs[k], hs[k], |selected|, |sensors|) by {
      hide MatrixSum, PairMatrix, Stores, SumOver, Group;
    }
    g, h, totalWindows := AggregateBackboneGh(rows, gs, hs, |selected|, |sensors|);
    hide MatrixSum, PairMatrix, Stores, SumOver, Group, RowStores, Summarises, FlightMatrices;
    EveryFlightListed(windows, order);
    GroupedMatrixSum(windows, FlightOf, order, gs, selected, selected);
    GroupedMatrixSum(windows, FlightOf, order, hs, selected, sensors);
    CountsAddUp(windows, order, rows);
  }

  lemma CountsAddUp(windows: seq<Window>, order: seq<FlightKey>, rows: seq<GhRow>)
    requires Distinct(order) && |rows| == |order|
    requires forall w :: w in windows ==> FlightOf(w) in order
    requires forall k :: 0 <= k < |rows| ==>
                           CountOf(rows[k]) == SumOver(Group(windows, FlightOf, order[k]), Presence)
    ensures SumOver(rows, CountOf) == SumOver(windows, Presence)
  {
    hide SumOver, Group;
    SumByGroups(windows, FlightOf, order, Presence);
    SumMapped(rows, order, CountOf, GroupSum(windows, FlightOf, Presence));
  }

  lemma EveryFlightListed(windows: seq<Window>, order: seq<FlightKey>)
    requires forall key :: key in order <==> HasFlight(windows, key)
    ensures forall w :: w in windows ==> FlightOf(w) in order
    ensures order == [] <==> windows == []
  {
    forall w | w in windows
      ensures FlightOf(w) in order
    {
      assert HasFlight(windows, FlightOf(w));
    }
    if order != [] {
      assert HasFlight(windows, order[0]);
    }
    if windows != [] {
      assert windows[0] in windows;
    }
  }

  // ---------- The one-pass form ----------

  /** The selected-sensor column of a window: an absent vector, a missing sensor and a null all become zero. */
  function SelectedColumn(w: Window, sensor: string): real {
    if w.vector.None? then 0.0 else Reading(w.vector.value, sensor)
  }

  ghost function GramTerm(u: string, v: string): Window -> real {
    (w: Window) => Times(SelectedColumn(w, u), SelectedColumn(w, v))
  }

  ghost function OnePassGram(ws: seq<Window>, u: string, v: string): real {
    SumOver(ws, GramTerm(u, v))
  }

  /** The one-pass count takes every row. */
  function OnePassCount(ws: seq<Window>): nat {
    |ws|
  }

  const WindowKey: Window -> (string, string, int) := (w: Window) => (w.tailId, w.flightId, w.winId)

  /** A non-null entry for the sensor in the window's map. */
  predicate HasEntry(w: Window, sensor: string) {
    w.vector.Some? && sensor in w.vector.value && w.vector.value[sensor].Some?
  }

  ghost function CrossTerm(u: string, value: real): Window -> real {
    (x: Window) => Times(SelectedColumn(x, u), value)
  }

  /** One exploded entry of `w` joined on the window key with the selected-sensor frame. */
  ghost function JoinedEntry(ws: seq<Window>, u: string, v: string): Window -> real {
    (w: Window) =>
      if HasEntry(w, v) then SumOver(Group(ws, WindowKey, WindowKey(w)), CrossTerm(u, w.vector.value[v].value))
      else 0.0
  }

  ghost function OnePassCross(ws: seq<Window>, u: string, v: string): real {
    SumOver(ws, JoinedEntry(ws, u, v))
  }

  /** The cross-term frame has a row for a sensor exactly when some window has a non-null entry for it. */
  ghost predicate HasCrossRow(ws: seq<Window>, v: string) {
    exists w :: w in ws && HasEntry(w, v)
  }

  lemma OnePassGramAgrees(ws: seq<Window>, u: string, v: string)
    ensures OnePassGram(ws, u, v) == PairSum(ws, u, v)
  {
    forall w | w in ws
      ensures GramTerm(u, v)(w) == Contribution(u, v)(w)
    {
      assert w.vector.None? ==> Times(0.0, 0.0) == 0.0;
    }
    SumCongruent(ws, GramTerm(u, v), Contribution(u, v));
  }

  /** The two window counts agree exactly when no window lacks its vector. */
  lemma {:induction false} OnePassCountAgreesIff(ws: seq<Window>)
    ensures SumOver(ws, Presence) <= OnePassCount(ws) as real
    ensures OnePassCount(ws) as real == SumOver(ws, Presence) <==> forall w :: w in ws ==> w.vector.Some?
  {
    if ws != [] {
      OnePassCountAgreesIff(ws[..|ws| - 1]);
      assert forall w :: w in ws <==> w in ws[..|ws| - 1] || w == ws[|ws| - 1];
    }
  }

  ghost predicate UniqueKeys(ws: seq<Window>) {
    forall i, j :: 0 <= i < j < |ws| ==> WindowKey(ws[i]) != WindowKey(ws[j])
  }

  lemma {:induction false} UniqueKeyGroup(ws: seq<Window>, k: nat)
    requires k < |ws| && UniqueKeys(ws)
    ensures Group(ws, WindowKey, WindowKey(ws[k])) == [ws[k]]
  {
    var rest, last := ws[..|ws| - 1], ws[|ws| - 1];
    if k == |ws| - 1 {
      GroupIsEmpty(rest, WindowKey, WindowKey(last));
    } else {
      UniqueKeyGroup(rest, k);
    }
  }

  /**
   * With unique window keys the self-join multiplies nothing, and the one-pass cross terms are the accumulated ones.
   */
  lemma OnePassCrossAgrees(ws: seq<Window>, u: string, v: string)
    requires UniqueKeys(ws)
    ensures OnePassCross(ws, u, v) == PairSum(ws, u, v)
  {
    forall w | w in ws
      ensures JoinedEntry(ws, u, v)(w) == Contribution(u, v)(w)
    {
      var k :| 0 <= k < |ws| && ws[k] == w;
      UniqueKeyGroup(ws, k);
      if HasEntry(w, v) {
        SumAppend([], w, CrossTerm(u, w.vector.value[v].value));
        assert [] + [w] == [w];
      } else if w.vector.Some? {
        assert Times(Reading(w.vector.value, u), 0.0) == 0.0;
      }
    }
    SumCongruent(ws, JoinedEntry(ws, u, v), Contribution(u, v));
  }

  /** A sensor without a cross-term row has only zero entries in the accumulated matrix. */
  lemma NoCrossRowIsZero(ws: seq<Window>, u: string, v: string)
    requires !HasCrossRow(ws, v)
    ensures PairSum(ws, u, v) == 0.0
  {
    SumOfZeros(ws, Contribution(u, v));
  }
}
