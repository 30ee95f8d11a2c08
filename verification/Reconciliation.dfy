/** The session reconciliation summary: active lines grouped by item, joined with the ERP items, and
    the statistics over them (backend/api/reconciliation_api.py). */
module Reconciliation {
  import opened Common
  import Chains = CountLineChains

  datatype LineStatus = Superseded | OtherStatus

  datatype Line = Line(
    id: string,
    sessionId: string,
    itemCode: string,
    qty: real,
    erpQty: Option<real>,
    status: LineStatus,
    supersededBy: Option<string>)

  datatype ErpItem = ErpItem(itemCode: string, stockQty: Option<real>)

  /** One row of the report after `$project`. */
  datatype Row = Row(itemCode: string, totalCounted: real, baselineQty: real, baselineConflict: bool, systemStock: real)

  datatype Outcome = Match | Surplus | Missing

  datatype Item = Item(row: Row, countVariance: real, erpDrift: real, finalGap: real, outcome: Outcome)

  datatype Stats = Stats(
    items: nat, withVariance: nat, matched: nat,
    variance: real, drift: real, gap: real, conflicts: nat)

  // ---------------------------------------------------------------- the pipeline

  /** `$match`: this session's lines that are not superseded. */
  predicate Active(l: Line, session: string) {
    l.sessionId == session && l.status != Superseded && !Truthy(l.supersededBy)
  }

  function ActiveLines(lines: seq<Line>, session: string): seq<Line> {
    if lines == [] then []
    else
      var rest, last := ActiveLines(lines[..|lines| - 1], session), lines[|lines| - 1];
      if Active(last, session) then rest + [last] else rest
  }

  function Quantity(lines: seq<Line>): real {
    if lines == [] then 0.0 else Quantity(lines[..|lines| - 1]) + lines[|lines| - 1].qty
  }

  /** `$sum` of a group. */
  function GroupTotal(lines: seq<Line>, code: string): real {
    if lines == [] then 0.0
    else
      var last := lines[|lines| - 1];
      GroupTotal(lines[..|lines| - 1], code) + if last.itemCode == code then last.qty else 0.0
  }

  function BaselineOf(l: Line): real {
    if l.erpQty.Some? then l.erpQty.value else 0.0
  }

  /** `$addToSet` of a group's baselines. */
  function BaselineValues(lines: seq<Line>, code: string): set<real> {
    if lines == [] then {}
    else
      BaselineValues(lines[..|lines| - 1], code) +
      if lines[|lines| - 1].itemCode == code then {BaselineOf(lines[|lines| - 1])} else {}
  }

  /** `$max` of a group's baselines. */
  function MaxBaseline(lines: seq<Line>, code: string): real {
    if lines == [] then 0.0
    else
      var init, last := lines[..|lines| - 1], lines[|lines| - 1];
      if last.itemCode != code then MaxBaseline(init, code)
      else if BaselineValues(init, code) == {} || MaxBaseline(init, code) < BaselineOf(last) then BaselineOf(last)
      else MaxBaseline(init, code)
  }

  /** The reported baseline is one of the group's and at least every other. */
  lemma {:induction false} BaselineIsMaximum(lines: seq<Line>, code: string)
    ensures forall v | v in BaselineValues(lines, code) :: v <= MaxBaseline(lines, code)
    ensures BaselineValues(lines, code) != {} ==> MaxBaseline(lines, code) in BaselineValues(lines, code)
    ensures forall v :: v in BaselineValues(lines, code)
                        <==> exists i | 0 <= i < |lines| :: lines[i].itemCode == code && BaselineOf(lines[i]) == v
  {
    if lines != [] {
      var init := lines[..|lines| - 1];
      BaselineIsMaximum(init, code);
      assert forall i | 0 <= i < |init| :: init[i] == lines[i];
    }
  }

  /** The group keys, each once. */
  function Codes(lines: seq<Line>): seq<string> {
    if lines == [] then []
    else
      var rest, code := Codes(lines[..|lines| - 1]), lines[|lines| - 1].itemCode;
      if code in rest then rest else rest + [code]
  }

  /** `$lookup` by item code. */
  function Matches(erp: seq<ErpItem>, code: string): seq<ErpItem> {
    if erp == [] then []
    else
      var rest, last := Matches(erp[..|erp| - 1], code), erp[|erp| - 1];
      if last.itemCode == code then rest + [last] else rest
  }

  function RowOf(lines: seq<Line>, code: string, stock: Option<real>): Row {
    Row(code, GroupTotal(lines, code), MaxBaseline(lines, code), |BaselineValues(lines, code)| > 1,
        if stock.Some? then stock.value else 0.0)
  }

  function MatchRows(lines: seq<Line>, code: string, matches: seq<ErpItem>): seq<Row> {
    if matches == [] then []
    else MatchRows(lines, code, matches[..|matches| - 1]) + [RowOf(lines, code, matches[|matches| - 1].stockQty)]
  }

  /** `$unwind`, keeping a group without a match: one row per match, or one without stock. */
  function GroupRows(lines: seq<Line>, code: string, matches: seq<ErpItem>): seq<Row> {
    if matches == [] then [RowOf(lines, code, None)] else MatchRows(lines, code, matches)
  }

  function RowsFor(lines: seq<Line>, codes: seq<string>, erp: seq<ErpItem>): seq<Row> {
    if codes == [] then []
    else
      RowsFor(lines, codes[..|codes| - 1], erp)
      + GroupRows(lines, codes[|codes| - 1], Matches(erp, codes[|codes| - 1]))
  }

  /** The aggregation before `$sort`. */
  function Rows(lines: seq<Line>, session: string, erp: seq<ErpItem>): seq<Row> {
    var active := ActiveLines(lines, session);
    RowsFor(active, Codes(active), erp)
  }

  function Variance(r: Row): real { r.totalCounted - r.baselineQty }
  function Drift(r: Row): real { r.systemStock - r.baselineQty }
  function Gap(r: Row): real { r.totalCounted - r.systemStock }

  function OutcomeOf(variance: real): Outcome {
    if variance > 0.0 then Surplus else if variance < 0.0 then Missing else Match
  }

  function Labelled(r: Row): Item {
    Item(r, Variance(r), Drift(r), Gap(r), OutcomeOf(Variance(r)))
  }

  /** What the report says of a row: counted against the baseline, stock against the baseline, counted
      against stock, and surplus, missing or match by the first of them. */
  predicate Reports(item: Item, row: Row) {
    && item.row == row
    && item.countVariance == row.totalCounted - row.baselineQty
    && item.erpDrift == row.systemStock - row.baselineQty
    && item.finalGap == row.totalCounted - row.systemStock
    && (item.outcome == Surplus <==> row.totalCounted > row.baselineQty)
    && (item.outcome == Missing <==> row.totalCounted < row.baselineQty)
    && (item.outcome == Match <==> row.totalCounted == row.baselineQty)
  }

  /** The active lines are those of the session that nothing supersedes. */
  lemma {:induction false} ActiveExactly(lines: seq<Line>, session: string, l: Line)
    ensures l in ActiveLines(lines, session)
            <==> l in lines && l.sessionId == session && l.status == OtherStatus
                 && (l.supersededBy.None? || l.supersededBy.value == "")
  {
    if lines != [] {
      var init := lines[..|lines| - 1];
      ActiveExactly(init, session, l);
      assert lines == init + [lines[|lines| - 1]];
    }
  }

  /** The baseline recorded with a line, zero if none was. */
  function Recorded(l: Line): real {
    if l.erpQty.Some? then l.erpQty.value else 0.0
  }

  predicate DifferentBaselines(lines: seq<Line>, code: string, i: nat, k: nat) {
    && i < |lines| && k < |lines| && lines[i].itemCode == code && lines[k].itemCode == code
    && Recorded(lines[i]) != Recorded(lines[k])
  }

  /** A row of the report for the lines of one item code and one stock figure. */
  ghost predicate IsRow(row: Row, lines: seq<Line>, code: string, stock: Option<real>) {
    && row.itemCode == code
    && row.totalCounted == GroupTotal(lines, code)
    && row.systemStock == (if stock.Some? then stock.value else 0.0)
    && (forall i | 0 <= i < |lines| && lines[i].itemCode == code :: Recorded(lines[i]) <= row.baselineQty)
    && ((exists i | 0 <= i < |lines| :: lines[i].itemCode == code) ==>
          exists i | 0 <= i < |lines| :: lines[i].itemCode == code && Recorded(lines[i]) == row.baselineQty)
    && (row.baselineConflict <==> exists i: nat, k: nat :: DifferentBaselines(lines, code, i, k))
  }

  lemma TwoOf<T>(s: set<T>) returns (x: T, y: T)
    requires |s| > 1
    ensures x in s && y in s && x != y
  {
    assert s != {};
    x :| x in s;
    assert |s - {x}| == |s| - 1;
    assert s - {x} != {};
    y :| y in s - {x};
  }

  lemma TwoAreMany(s: set<real>, x: real, y: real)
    requires x in s && y in s && x != y
    ensures |s| > 1
  {
    assert |s| == |s - {x, y}| + 2;
  }

  lemma ConflictIff(lines: seq<Line>, code: string)
    ensures |BaselineValues(lines, code)| > 1 <==> exists i: nat, k: nat :: DifferentBaselines(lines, code, i, k)
  {
    if |BaselineValues(lines, code)| > 1 {
      var x, y := TwoOf(BaselineValues(lines, code));
      var i := ValueOwner(lines, code, x);
      var k := ValueOwner(lines, code, y);
      assert DifferentBaselines(lines, code, i, k);
    }
    if i: nat, k: nat :| DifferentBaselines(lines, code, i, k) {
      ValueListed(lines, code, i);
      ValueListed(lines, code, k);
      TwoAreMany(BaselineValues(lines, code), Recorded(lines[i]), Recorded(lines[k]));
    }
  }

  lemma ValueListed(lines: seq<Line>, code: string, i: nat)
    requires i < |lines| && lines[i].itemCode == code
    ensures Recorded(lines[i]) in BaselineValues(lines, code)
  {
    BaselineIsMaximum(lines, code);
    assert BaselineOf(lines[i]) == Recorded(lines[i]);
  }

  lemma ValueOwner(lines: seq<Line>, code: string, x: real) returns (i: nat)
    requires x in BaselineValues(lines, code)
    ensures i < |lines| && lines[i].itemCode == code && Recorded(lines[i]) == x
  {
    BaselineIsMaximum(lines, code);
    i :| i < |lines| && lines[i].itemCode == code && BaselineOf(lines[i]) == x;
  }

  lemma RowOfIsRow(lines: seq<Line>, code: string, stock: Option<real>)
    ensures IsRow(RowOf(lines, code, stock), lines, code, stock)
  {
    BaselineIsMaximum(lines, code);
    ConflictIff(lines, code);
    forall i | 0 <= i < |lines| && lines[i].itemCode == code
      ensures Recorded(lines[i]) == BaselineOf(lines[i]) && BaselineOf(lines[i]) in BaselineValues(lines, code)
    {
    }
  }

  /** The row is that of an item code counted in the lines and of one ERP item of that code, or of none if
      there is none. */
  ghost predicate Belongs(row: Row, lines: seq<Line>, erp: seq<ErpItem>) {
    exists i | 0 <= i < |lines| :: RowOfCode(row, lines, lines[i].itemCode, erp)
  }

  ghost predicate RowOfCode(row: Row, lines: seq<Line>, code: string, erp: seq<ErpItem>) {
    if forall k | 0 <= k < |erp| :: erp[k].itemCode != code then IsRow(row, lines, code, None)
    else exists k | 0 <= k < |erp| :: erp[k].itemCode == code && IsRow(row, lines, code, erp[k].stockQty)
  }

  lemma {:induction false} MatchesExactly(erp: seq<ErpItem>, code: string, e: ErpItem)
    ensures e in Matches(erp, code) <==> e in erp && e.itemCode == code
  {
    if erp != [] {
      MatchesExactly(erp[..|erp| - 1], code, e);
      assert erp == erp[..|erp| - 1] + [erp[|erp| - 1]];
    }
  }

  lemma {:induction false} MatchRowFrom(lines: seq<Line>, code: string, matches: seq<ErpItem>, row: Row)
    requires row in MatchRows(lines, code, matches)
    ensures exists m | m in matches :: row == RowOf(lines, code, m.stockQty)
  {
    var n := |matches| - 1;
    if row in MatchRows(lines, code, matches[..n]) {
      MatchRowFrom(lines, code, matches[..n], row);
      var m :| m in matches[..n] && row == RowOf(lines, code, m.stockQty);
      assert m in matches;
    } else {
      assert matches[n] in matches;
    }
  }

  lemma GroupRowIsRow(lines: seq<Line>, code: string, erp: seq<ErpItem>, row: Row)
    requires row in GroupRows(lines, code, Matches(erp, code))
    ensures RowOfCode(row, lines, code, erp)
  {
    var matches := Matches(erp, code);
    if matches == [] {
      RowOfIsRow(lines, code, None);
      forall k | 0 <= k < |erp| ensures erp[k].itemCode != code {
        MatchesExactly(erp, code, erp[k]);
      }
    } else {
      MatchRowFrom(lines, code, matches, row);
      var m :| m in matches && row == RowOf(lines, code, m.stockQty);
      MatchesExactly(erp, code, m);
      RowOfIsRow(lines, code, m.stockQty);
    }
  }

  lemma {:induction false} RowHasCode(lines: seq<Line>, codes: seq<string>, erp: seq<ErpItem>, row: Row)
    requires row in RowsFor(lines, codes, erp)
    ensures exists code | code in codes :: row in GroupRows(lines, code, Matches(erp, code))
  {
    var n := |codes| - 1;
    if row in RowsFor(lines, codes[..n], erp) {
      RowHasCode(lines, codes[..n], erp, row);
      var code :| code in codes[..n] && row in GroupRows(lines, code, Matches(erp, code));
      assert code in codes;
    } else {
      assert codes[n] in codes;
    }
  }

  /** Every row of the report belongs to an item counted in the session's active lines. */
  lemma RowsBelong(lines: seq<Line>, session: string, erp: seq<ErpItem>, row: Row)
    requires row in Rows(lines, session, erp)
    ensures Belongs(row, ActiveLines(lines, session), erp)
  {
    var active := ActiveLines(lines, session);
    RowHasCode(active, Codes(active), erp, row);
    var code :| code in Codes(active) && row in GroupRows(active, code, Matches(erp, code));
    CodesExact(active);
    GroupRowIsRow(active, code, erp, row);
    var i :| 0 <= i < |active| && active[i].itemCode == code;
    assert RowOfCode(row, active, active[i].itemCode, erp);
  }

  lemma {:induction false} MatchHasRow(lines: seq<Line>, code: string, matches: seq<ErpItem>, m: ErpItem)
    requires m in matches
    ensures RowOf(lines, code, m.stockQty) in MatchRows(lines, code, matches)
  {
    var n := |matches| - 1;
    var rest, last := MatchRows(lines, code, matches[..n]), RowOf(lines, code, matches[n].stockQty);
    assert (rest + [last])[|rest|] == last;
    if m != matches[n] {
      assert m in matches[..n];
      MatchHasRow(lines, code, matches[..n], m);
    }
  }

  lemma {:induction false} CodeHasRows(lines: seq<Line>, codes: seq<string>, erp: seq<ErpItem>, code: string, row: Row)
    requires code in codes && row in GroupRows(lines, code, Matches(erp, code))
    ensures row in RowsFor(lines, codes, erp)
  {
    var n := |codes| - 1;
    if code != codes[n] {
      assert code in codes[..n];
      CodeHasRows(lines, codes[..n], erp, code, row);
    }
  }

  /** And every item counted there has its row: one with each ERP item of its code, or one without stock. */
  lemma ItemsHaveRows(lines: seq<Line>, session: string, erp: seq<ErpItem>, l: Line, stock: Option<real>)
    requires l in ActiveLines(lines, session)
    requires if forall k | 0 <= k < |erp| :: erp[k].itemCode != l.itemCode then stock.None?
             else exists k | 0 <= k < |erp| :: erp[k] == ErpItem(l.itemCode, stock)
    ensures exists row | row in Rows(lines, session, erp) :: IsRow(row, ActiveLines(lines, session), l.itemCode, stock)
  {
    var active, code, matches := ActiveLines(lines, session), l.itemCode, Matches(erp, l.itemCode);
    var row := RowOf(active, code, stock);
    RowOfIsRow(active, code, stock);
    CodesExact(active);
    if k :| 0 <= k < |erp| && erp[k] == ErpItem(code, stock) {
      MatchesExactly(erp, code, erp[k]);
      MatchHasRow(active, code, matches, erp[k]);
    } else if matches != [] {
      MatchesExactly(erp, code, matches[0]);
    }
    CodeHasRows(active, Codes(active), erp, code, row);
  }

  // ---------------------------------------------------------------- the statistics loop

  function SumVariance(rows: seq<Row>): real {
    if rows == [] then 0.0 else SumVariance(rows[..|rows| - 1]) + Variance(rows[|rows| - 1])
  }

  function SumDrift(rows: seq<Row>): real {
    if rows == [] then 0.0 else SumDrift(rows[..|rows| - 1]) + Drift(rows[|rows| - 1])
  }

  function SumGap(rows: seq<Row>): real {
    if rows == [] then 0.0 else SumGap(rows[..|rows| - 1]) + Gap(rows[|rows| - 1])
  }

  function SumCounted(rows: seq<Row>): real {
    if rows == [] then 0.0 else SumCounted(rows[..|rows| - 1]) + rows[|rows| - 1].totalCounted
  }

  function CountVarying(rows: seq<Row>): nat {
    if rows == [] then 0 else CountVarying(rows[..|rows| - 1]) + if Variance(rows[|rows| - 1]) != 0.0 then 1 else 0
  }

  function CountConflicts(rows: seq<Row>): nat {
    if rows == [] then 0 else CountConflicts(rows[..|rows| - 1]) + if rows[|rows| - 1].baselineConflict then 1 else 0
  }

  function LabelledAll(rows: seq<Row>): seq<Item> {
    if rows == [] then [] else LabelledAll(rows[..|rows| - 1]) + [Labelled(rows[|rows| - 1])]
  }

  /** The post-processing loop, over the rows in whatever order `$sort` put them. */
  method Summarize(rows: seq<Row>) returns (stats: Stats, items: seq<Item>)
    ensures items == LabelledAll(rows)
    ensures |items| == |rows| && forall i | 0 <= i < |rows| :: Reports(items[i], rows[i])
    ensures stats.items == |rows|
    ensures stats.withVariance == CountVarying(rows)
    ensures stats.matched + stats.withVariance == |rows|
    ensures stats.variance == SumVariance(rows)
    ensures stats.drift == SumDrift(rows)
    ensures stats.gap == SumGap(rows)
    ensures stats.gap == stats.variance - stats.drift
    ensures stats.conflicts == CountConflicts(rows)
  {
    stats := Stats(|rows|, 0, 0, 0.0, 0.0, 0.0, 0);
    items := [];
    for i := 0 to |rows|
      invariant items == LabelledAll(rows[..i])
      invariant stats.items == |rows|
      invariant stats.withVariance == CountVarying(rows[..i])
      invariant stats.matched + stats.withVariance == i
      invariant stats.variance == SumVariance(rows[..i])
      invariant stats.drift == SumDrift(rows[..i])
      invariant stats.gap == SumGap(rows[..i]) == stats.variance - stats.drift
      invariant stats.conflicts == CountConflicts(rows[..i])
    {
      var row := rows[i];
      assert rows[..i + 1][..i] == rows[..i];
      var variance, drift, gap := Variance(row), Drift(row), Gap(row);
      items := items + [Item(row, variance, drift, gap, OutcomeOf(variance))];
      if variance != 0.0 {
        stats := stats.(withVariance := stats.withVariance + 1, variance := stats.variance + variance);
      } else {
        stats := stats.(matched := stats.matched + 1);
      }
      stats := stats.(drift := stats.drift + drift, gap := stats.gap + gap);
      if row.baselineConflict {
        stats := stats.(conflicts := stats.conflicts + 1);
      }
    }
    assert rows[..|rows|] == rows;
    LabelledReports(rows);
  }

  lemma {:induction false} LabelledReports(rows: seq<Row>)
    ensures |LabelledAll(rows)| == |rows| && forall i | 0 <= i < |rows| :: Reports(LabelledAll(rows)[i], rows[i])
  {
    if rows != [] {
      LabelledReports(rows[..|rows| - 1]);
    }
  }

  // ---------------------------------------------------------------- conservation

  /** Rows per item: one for each ERP item of that code, and one if there is none. */
  function Weight(erp: seq<ErpItem>, code: string): nat {
    if Matches(erp, code) == [] then 1 else |Matches(erp, code)|
  }

  /** x added up n times. */
  function Times(n: nat, x: real): real {
    if n == 0 then 0.0 else Times(n - 1, x) + x
  }

  lemma {:induction false} TimesAdds(n: nat, x: real, y: real)
    ensures Times(n, x + y) == Times(n, x) + Times(n, y)
    ensures Times(n, 0.0) == 0.0
    ensures Times(1, x) == x
  {
    if n > 0 {
      TimesAdds(n - 1, x, y);
    }
  }

  /** Each line's quantity as often as its item has rows. */
  function Weighted(lines: seq<Line>, erp: seq<ErpItem>): real {
    if lines == [] then 0.0
    else Weighted(lines[..|lines| - 1], erp) + Times(Weight(erp, lines[|lines| - 1].itemCode), lines[|lines| - 1].qty)
  }

  function WeightedTotals(lines: seq<Line>, codes: seq<string>, erp: seq<ErpItem>): real {
    if codes == [] then 0.0
    else
      WeightedTotals(lines, codes[..|codes| - 1], erp)
      + Times(Weight(erp, codes[|codes| - 1]), GroupTotal(lines, codes[|codes| - 1]))
  }

  lemma {:induction false} SumCountedConcat(a: seq<Row>, b: seq<Row>)
    ensures SumCounted(a + b) == SumCounted(a) + SumCounted(b)
  {
    if b == [] {
      assert a + b == a;
    } else {
      assert (a + b)[..|a + b| - 1] == a + b[..|b| - 1];
      SumCountedConcat(a, b[..|b| - 1]);
    }
  }

  lemma {:induction false} MatchRowsTotal(lines: seq<Line>, code: string, matches: seq<ErpItem>)
    ensures SumCounted(MatchRows(lines, code, matches)) == Times(|matches|, GroupTotal(lines, code))
  {
    if matches != [] {
      var init := matches[..|matches| - 1];
      MatchRowsTotal(lines, code, init);
      var row := RowOf(lines, code, matches[|matches| - 1].stockQty);
      SumCountedConcat(MatchRows(lines, code, init), [row]);
      assert SumCounted([row]) == row.totalCounted;
    }
  }

  lemma GroupRowsTotal(lines: seq<Line>, code: string, erp: seq<ErpItem>)
    ensures SumCounted(GroupRows(lines, code, Matches(erp, code))) == Times(Weight(erp, code), GroupTotal(lines, code))
  {
    MatchRowsTotal(lines, code, Matches(erp, code));
    TimesAdds(1, GroupTotal(lines, code), 0.0);
  }

  lemma {:induction false} RowsCarryTotals(lines: seq<Line>, codes: seq<string>, erp: seq<ErpItem>)
    ensures SumCounted(RowsFor(lines, codes, erp)) == WeightedTotals(lines, codes, erp)
  {
    if codes != [] {
      var init, code := codes[..|codes| - 1], codes[|codes| - 1];
      RowsCarryTotals(lines, init, erp);
      SumCountedConcat(RowsFor(lines, init, erp), GroupRows(lines, code, Matches(erp, code)));
      GroupRowsTotal(lines, code, erp);
    }
  }

  predicate NoRepeats(codes: seq<string>) {
    forall i, j | 0 <= i < j < |codes| :: codes[i] != codes[j]
  }

  /** Adding one line moves the weighted total of its own code only. */
  lemma {:induction false} AddLine(lines: seq<Line>, l: Line, codes: seq<string>, erp: seq<ErpItem>)
    requires NoRepeats(codes)
    ensures WeightedTotals(lines + [l], codes, erp)
            == WeightedTotals(lines, codes, erp)
               + if l.itemCode in codes then Times(Weight(erp, l.itemCode), l.qty) else 0.0
  {
    if codes != [] {
      var init, code := codes[..|codes| - 1], codes[|codes| - 1];
      AddLine(lines, l, init, erp);
      AppendTotal(lines, l, code);
      InSnoc(codes, l.itemCode);
      TimesAdds(Weight(erp, code), GroupTotal(lines, code), l.qty);
    }
  }

  lemma InSnoc(codes: seq<string>, code: string)
    requires codes != [] && NoRepeats(codes)
    ensures code in codes <==> code in codes[..|codes| - 1] || code == codes[|codes| - 1]
    ensures codes[|codes| - 1] !in codes[..|codes| - 1]
  {
    assert codes == codes[..|codes| - 1] + [codes[|codes| - 1]];
  }

  lemma {:induction false} CodesExact(lines: seq<Line>)
    ensures NoRepeats(Codes(lines))
    ensures forall code :: code in Codes(lines) <==> exists i | 0 <= i < |lines| :: lines[i].itemCode == code
    ensures forall code | code !in Codes(lines) :: GroupTotal(lines, code) == 0.0
  {
    if lines != [] {
      var init := lines[..|lines| - 1];
      CodesExact(init);
      assert forall i | 0 <= i < |init| :: lines[i] == init[i];
      assert lines[|lines| - 1].itemCode in Codes(lines);
    }
  }

  lemma {:induction false} TotalsCoverLines(lines: seq<Line>, erp: seq<ErpItem>)
    ensures WeightedTotals(lines, Codes(lines), erp) == Weighted(lines, erp)
  {
    if lines != [] {
      var init, l := lines[..|lines| - 1], lines[|lines| - 1];
      assert lines == init + [l];
      TotalsCoverLines(init, erp);
      CodesExact(init);
      AddLine(init, l, Codes(init), erp);
      if l.itemCode !in Codes(init) {
        var longer := Codes(init) + [l.itemCode];
        assert Codes(lines) == longer && longer[..|longer| - 1] == Codes(init);
        AppendTotal(init, l, l.itemCode);
      }
    }
  }

  predicate UniqueCodes(erp: seq<ErpItem>) {
    forall i, j | 0 <= i < j < |erp| :: erp[i].itemCode != erp[j].itemCode
  }

  lemma {:induction false} UniqueMeansWeightOne(erp: seq<ErpItem>, code: string)
    requires UniqueCodes(erp)
    ensures Weight(erp, code) == 1
    ensures Matches(erp, code) != [] <==> exists i | 0 <= i < |erp| :: erp[i].itemCode == code
  {
    if erp != [] {
      var init := erp[..|erp| - 1];
      UniqueMeansWeightOne(init, code);
      assert forall i | 0 <= i < |init| :: init[i] == erp[i];
      if erp[|erp| - 1].itemCode == code {
        assert Matches(init, code) == [];
      }
    }
  }

  lemma {:induction false} WeightOne(lines: seq<Line>, erp: seq<ErpItem>)
    requires UniqueCodes(erp)
    ensures Weighted(lines, erp) == Quantity(lines)
  {
    if lines != [] {
      WeightOne(lines[..|lines| - 1], erp);
      UniqueMeansWeightOne(erp, lines[|lines| - 1].itemCode);
      TimesAdds(1, lines[|lines| - 1].qty, 0.0);
    }
  }

  /** The report's totals add up to the active quantity, each line counted once per ERP item of its
      code; with unique ERP item codes that is exactly the counted quantity of all active lines. */
  lemma TotalsConserved(lines: seq<Line>, session: string, erp: seq<ErpItem>)
    ensures SumCounted(Rows(lines, session, erp)) == Weighted(ActiveLines(lines, session), erp)
    ensures UniqueCodes(erp) ==> SumCounted(Rows(lines, session, erp)) == Quantity(ActiveLines(lines, session))
  {
    var active := ActiveLines(lines, session);
    RowsCarryTotals(active, Codes(active), erp);
    TotalsCoverLines(active, erp);
    if UniqueCodes(erp) {
      WeightOne(active, erp);
    }
  }

  // ---------------------------------------------------------------- order does not matter

  lemma {:induction false} RemoveAt(rows: seq<Row>, i: nat)
    requires i < |rows|
    ensures var rest := rows[..i] + rows[i + 1..];
            && SumVariance(rows) == SumVariance(rest) + Variance(rows[i])
            && SumDrift(rows) == SumDrift(rest) + Drift(rows[i])
            && SumCounted(rows) == SumCounted(rest) + rows[i].totalCounted
            && CountVarying(rows) == CountVarying(rest) + (if Variance(rows[i]) != 0.0 then 1 else 0)
            && CountConflicts(rows) == CountConflicts(rest) + (if rows[i].baselineConflict then 1 else 0)
  {
    var init := rows[..|rows| - 1];
    if i == |rows| - 1 {
      assert rows[..i] + rows[i + 1..] == init;
    } else {
      RemoveAt(init, i);
      var rest := rows[..i] + rows[i + 1..];
      assert init[i] == rows[i] && rest[|rest| - 1] == rows[|rows| - 1];
      assert rest[..|rest| - 1] == init[..i] + init[i + 1..];
    }
  }

  lemma Without<T>(s: seq<T>, i: nat)
    requires i < |s|
    ensures multiset(s) == multiset(s[..i] + s[i + 1..]) + multiset{s[i]}
  {
    assert s == s[..i] + [s[i]] + s[i + 1..];
  }

  lemma Cancel<T>(a: multiset<T>, b: multiset<T>, x: T)
    requires a + multiset{x} == b + multiset{x}
    ensures a == b
  {
    assert a == (a + multiset{x}) - multiset{x} == (b + multiset{x}) - multiset{x} == b;
  }

  /** A permutation holds the other's last row somewhere, and the rest permutes the rest. */
  lemma FindLast<T>(a: seq<T>, b: seq<T>) returns (i: nat)
    requires a != [] && multiset(a) == multiset(b)
    ensures i < |b| && b[i] == a[|a| - 1]
    ensures multiset(a[..|a| - 1]) == multiset(b[..i] + b[i + 1..])
  {
    var last := a[|a| - 1];
    assert last in multiset(a);
    i :| 0 <= i < |b| && b[i] == last;
    Without(a, |a| - 1);
    assert a[..|a| - 1] + a[|a|..] == a[..|a| - 1];
    Without(b, i);
    Cancel(multiset(a[..|a| - 1]), multiset(b[..i] + b[i + 1..]), last);
  }

  /** Sorting the rows changes no total. */
  lemma {:induction false} OrderDoesNotMatter(a: seq<Row>, b: seq<Row>)
    requires multiset(a) == multiset(b)
    ensures SumVariance(a) == SumVariance(b) && SumDrift(a) == SumDrift(b) && SumCounted(a) == SumCounted(b)
    ensures CountVarying(a) == CountVarying(b) && CountConflicts(a) == CountConflicts(b)
  {
    if a == [] {
      assert |multiset(b)| == 0;
    } else {
      var i := FindLast(a, b);
      OrderDoesNotMatter(a[..|a| - 1], b[..i] + b[i + 1..]);
      RemoveAt(b, i);
    }
  }

  // ---------------------------------------------------------------- a recount

  function SupersededBy(l: Line, newId: string): Line {
    l.(status := Superseded, supersededBy := Some(newId))
  }

  /** Superseding line k and adding its recount. */
  function Recounted(lines: seq<Line>, k: nat, added: Line): seq<Line>
    requires k < |lines|
  {
    lines[k := SupersededBy(lines[k], added.id)] + [added]
  }

  lemma {:induction false} SupersedeOne(lines: seq<Line>, k: nat, newId: string, session: string, code: string)
    requires k < |lines| && Active(lines[k], session)
    ensures GroupTotal(ActiveLines(lines[k := SupersededBy(lines[k], newId)], session), code)
            == GroupTotal(ActiveLines(lines, session), code) - if lines[k].itemCode == code then lines[k].qty else 0.0
  {
    var changed := lines[k := SupersededBy(lines[k], newId)];
    var init := lines[..|lines| - 1];
    if k == |lines| - 1 {
      assert changed[..|lines| - 1] == init;
      AppendTotal(ActiveLines(init, session), lines[k], code);
    } else {
      SupersedeOne(init, k, newId, session, code);
      assert changed[..|lines| - 1] == init[k := SupersededBy(init[k], newId)];
      var last := lines[|lines| - 1];
      AppendTotal(ActiveLines(init, session), last, code);
      AppendTotal(ActiveLines(changed[..|lines| - 1], session), last, code);
    }
  }

  lemma AppendTotal(lines: seq<Line>, l: Line, code: string)
    ensures GroupTotal(lines + [l], code) == GroupTotal(lines, code) + if l.itemCode == code then l.qty else 0.0
  {
    assert (lines + [l])[..|lines|] == lines;
  }

  /** A recount of an active line moves its item's total by exactly the new minus the old quantity,
      and no other item's. */
  lemma RecountMovesTotal(lines: seq<Line>, k: nat, added: Line, session: string, code: string)
    requires k < |lines| && Active(lines[k], session)
    requires Active(added, session) && added.itemCode == lines[k].itemCode
    ensures GroupTotal(ActiveLines(Recounted(lines, k, added), session), code)
            == GroupTotal(ActiveLines(lines, session), code)
               + if lines[k].itemCode == code then added.qty - lines[k].qty else 0.0
  {
    SupersedeOne(lines, k, added.id, session, code);
    var changed := lines[k := SupersededBy(lines[k], added.id)];
    assert Recounted(lines, k, added)[..|lines|] == changed;
    AppendTotal(ActiveLines(changed, session), added, code);
  }

  // ---------------------------------------------------------------- the recounts that are persisted

  /** What the report reads of a stored line; `erpQty` is the baseline recorded with it. */
  function Reported(l: Chains.Line, erpQty: Option<real>): Line {
    Line(l.id, l.place.sessionId, l.place.itemCode, l.quantity, erpQty,
         if l.status.SupersededLine? then Superseded else OtherStatus, l.supersededBy)
  }

  /** The stored lines in some order. */
  function Listing(store: Chains.Store, ids: seq<string>, baselines: string -> Option<real>): seq<Line>
    requires forall k | 0 <= k < |ids| :: ids[k] in store
  {
    seq(|ids|, k requires 0 <= k < |ids| => Reported(store[ids[k]], baselines(ids[k])))
  }

  /** The lines as stored, each id once. */
  predicate Lists(store: Chains.Store, ids: seq<string>) {
    && (forall i | 0 <= i < |ids| :: ids[i] in store)
    && forall i, j | 0 <= i < j < |ids| :: ids[i] != ids[j]
  }

  /** What both writes of a recount do to the report's lines. */
  lemma PersistIsRecount(store: Chains.Store, ids: seq<string>, baselines: string -> Option<real>,
                         line: Chains.Line, target: Chains.Line, k: nat)
    requires Lists(store, ids) && k < |ids| && ids[k] == target.id && line.id !in store
    ensures Listing(Chains.Persist(store, line, Some(target)), ids + [line.id], baselines)
            == Recounted(Listing(store, ids, baselines), k, Reported(line, baselines(line.id)))
  {
  }

  /** A recount of this stored line: at its place, neither of them superseded. */
  predicate RecountOf(store: Chains.Store, line: Chains.Line, id: string) {
    && id in store && store[id].place == line.place && line.id !in store
    && !Chains.Superseded(store[id]) && !Chains.Superseded(line)
  }

  /** Persisting a recount moves the reported total of its item, and no other, by new minus old. */
  lemma PersistMovesTotal(store: Chains.Store, ids: seq<string>, baselines: string -> Option<real>,
                          line: Chains.Line, target: Chains.Line, k: nat, code: string)
    requires Lists(store, ids) && k < |ids| && ids[k] == target.id && RecountOf(store, line, target.id)
    ensures var session := line.place.sessionId;
            var before := ActiveLines(Listing(store, ids, baselines), session);
            var persisted := Chains.Persist(store, line, Some(target));
            var after := ActiveLines(Listing(persisted, ids + [line.id], baselines), session);
            GroupTotal(after, code)
            == GroupTotal(before, code)
               + if line.place.itemCode == code then line.quantity - store[target.id].quantity else 0.0
  {
    PersistIsRecount(store, ids, baselines, line, target, k);
    var added := Reported(line, baselines(line.id));
    RecountMovesTotal(Listing(store, ids, baselines), k, added, line.place.sessionId, code);
  }

  /** A recount whose second write failed is counted beside the line it should have replaced: the total
      moves by the whole new quantity. */
  lemma FailedRecountCountsTwice(store: Chains.Store, ids: seq<string>, baselines: string -> Option<real>,
                                 line: Chains.Line, code: string)
    requires Lists(store, ids) && line.id !in store && !Chains.Superseded(line)
    ensures var session := line.place.sessionId;
            var before := ActiveLines(Listing(store, ids, baselines), session);
            var after := ActiveLines(Listing(Chains.WithLine(store, line), ids + [line.id], baselines), session);
            GroupTotal(after, code)
            == GroupTotal(before, code) + if line.place.itemCode == code then line.quantity else 0.0
  {
    var added := Reported(line, baselines(line.id));
    ListingSnoc(store, ids, baselines, line);
    ActiveSnoc(Listing(store, ids, baselines), added, line.place.sessionId);
    AppendTotal(ActiveLines(Listing(store, ids, baselines), line.place.sessionId), added, code);
  }

  lemma ListingSnoc(store: Chains.Store, ids: seq<string>, baselines: string -> Option<real>, line: Chains.Line)
    requires Lists(store, ids) && line.id !in store
    ensures Lists(Chains.WithLine(store, line), ids + [line.id])
    ensures Listing(Chains.WithLine(store, line), ids + [line.id], baselines)
            == Listing(store, ids, baselines) + [Reported(line, baselines(line.id))]
  {
  }

  lemma ActiveSnoc(lines: seq<Line>, l: Line, session: string)
    ensures ActiveLines(lines + [l], session) == ActiveLines(lines, session) + if Active(l, session) then [l] else []
  {
    assert (lines + [l])[..|lines|] == lines;
  }
}
