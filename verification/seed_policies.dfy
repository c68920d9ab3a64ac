/** The seed script's multiplier generator: a table of (Super A, Cat A) multiplier pairs,
    one row per tenure and one column per income range, expanded into multiplier rules. A
    multiplier of 0 marks a missing figure and produces no rule. */
module SeedPolicies {
  import opened Wrappers
  import opened Policies

  /** One income range; both bounds inclusive. */
  datatype Range = Range(min: real, max: real)

  const Ranges: seq<Range> := [Range(0.0, 25000.0), Range(25001.0, 35000.0), Range(35001.0, 50000.0),
                               Range(50001.0, 75000.0), Range(75001.0, 99999999.0)]

  const SuperA: string := "Super A"
  const CatA: string := "Cat A"

  /** One table row: the tenure it is keyed by and one (Super A, Cat A) pair per range.
      The table is an object keyed by tenure, so its entries are visited in ascending
      numeric key order. */
  datatype TableRow = TableRow(tenure: int, cells: seq<(real, real)>)

  const TableData: seq<TableRow> := [
    TableRow(12, [(5.0, 5.0), (5.0, 5.0), (6.0, 6.0), (7.0, 7.0), (7.0, 7.0)]),
    TableRow(24, [(9.0, 7.0), (10.0, 10.0), (10.0, 10.0), (13.0, 13.0), (13.0, 13.0)]),
    TableRow(36, [(12.0, 9.0), (14.0, 14.0), (16.0, 16.0), (18.0, 18.0), (18.0, 18.0)]),
    TableRow(48, [(14.0, 11.0), (16.0, 16.0), (20.0, 20.0), (23.0, 21.0), (23.0, 22.0)]),
    TableRow(60, [(15.0, 0.0), (19.0, 19.0), (22.0, 22.0), (25.0, 23.0), (27.0, 24.0)])]

  /** The rules of one cell: Super A first, then Cat A, each only for a positive multiplier. */
  function CellRules(range: Range, tenure: int, mults: (real, real)): (r: seq<MultiplierRule>)
    ensures |r| <= 2
  {
    (if mults.0 > 0.0 then [MultiplierRule(range.min, range.max, Some(SuperA), Some(tenure), mults.0)] else []) +
    (if mults.1 > 0.0 then [MultiplierRule(range.min, range.max, Some(CatA), Some(tenure), mults.1)] else [])
  }

  /** The rules of one row from column `col` on; column `c` uses range `c`. */
  function RowRules(row: TableRow, col: nat): seq<MultiplierRule>
    requires |row.cells| <= |Ranges| && col <= |row.cells|
    decreases |row.cells| - col
  {
    if col == |row.cells| then []
    else CellRules(Ranges[col], row.tenure, row.cells[col]) + RowRules(row, col + 1)
  }

  predicate FitsRanges(table: seq<TableRow>) {
    forall t :: 0 <= t < |table| ==> |table[t].cells| <= |Ranges|
  }

  /** The rules of the rows from `t` on. */
  function TableRules(table: seq<TableRow>, t: nat): seq<MultiplierRule>
    requires FitsRanges(table) && t <= |table|
    decreases |table| - t
  {
    if t == |table| then [] else RowRules(table[t], 0) + TableRules(table, t + 1)
  }

  /** The generator as the seed script runs it. */
  function GenerateMultipliers(): seq<MultiplierRule> {
    TableRules(TableData, 0)
  }

  // ----- What every generated rule looks like -----

  /** A rule the table entry at row `t`, column `c` produces: that range, that tenure, one
      of the two categories with its positive multiplier from the pair. */
  predicate FromEntry(x: MultiplierRule, table: seq<TableRow>, t: nat, c: nat)
    requires t < |table| && c < |table[t].cells| && |table[t].cells| <= |Ranges|
  {
    && x.incomeMin == Ranges[c].min && x.incomeMax == Ranges[c].max
    && x.tenure == Some(table[t].tenure)
    && x.multiplier > 0.0
    && ((x.category == Some(SuperA) && x.multiplier == table[t].cells[c].0) ||
        (x.category == Some(CatA) && x.multiplier == table[t].cells[c].1))
  }

  /** `x` comes from row `t0` or a later one. */
  predicate FromRowsAfter(x: MultiplierRule, table: seq<TableRow>, t0: nat)
    requires FitsRanges(table)
  {
    exists t, c :: t0 <= t < |table| && 0 <= c < |table[t].cells| && FromEntry(x, table, t, c)
  }

  predicate FromTable(x: MultiplierRule, table: seq<TableRow>)
    requires FitsRanges(table)
  {
    FromRowsAfter(x, table, 0)
  }

  /** `x` comes from row `t` at column `col` or later. */
  predicate FromRowAfter(x: MultiplierRule, table: seq<TableRow>, t: nat, col: nat)
    requires FitsRanges(table) && t < |table|
  {
    exists c :: col <= c < |table[t].cells| && FromEntry(x, table, t, c)
  }

  lemma {:induction false} RowRulesSound(table: seq<TableRow>, t: nat, col: nat)
    requires FitsRanges(table) && t < |table| && col <= |table[t].cells|
    ensures forall j :: 0 <= j < |RowRules(table[t], col)| ==> FromRowAfter(RowRules(table[t], col)[j], table, t, col)
    decreases |table[t].cells| - col
  {
    if col < |table[t].cells| {
      RowRulesSound(table, t, col + 1);
      var head := CellRules(Ranges[col], table[t].tenure, table[t].cells[col]);
      var rest := RowRules(table[t], col + 1);
      var r := RowRules(table[t], col);
      assert r == head + rest;
      forall j | 0 <= j < |r|
        ensures FromRowAfter(r[j], table, t, col)
      {
        if j < |head| {
          assert r[j] == head[j];
          assert FromEntry(r[j], table, t, col);
        } else {
          assert r[j] == rest[j - |head|];
          assert FromRowAfter(rest[j - |head|], table, t, col + 1);
          var c :| col + 1 <= c < |table[t].cells| && FromEntry(rest[j - |head|], table, t, c);
          assert FromEntry(r[j], table, t, c);
        }
      }
    }
  }

  lemma {:induction false} TableRulesSoundAfter(table: seq<TableRow>, t: nat)
    requires FitsRanges(table) && t <= |table|
    ensures forall j :: 0 <= j < |TableRules(table, t)| ==> FromRowsAfter(TableRules(table, t)[j], table, t)
    decreases |table| - t
  {
    if t < |table| {
      TableRulesSoundAfter(table, t + 1);
      RowRulesSound(table, t, 0);
      var head := RowRules(table[t], 0);
      var rest := TableRules(table, t + 1);
      var r := TableRules(table, t);
      assert r == head + rest;
      forall j | 0 <= j < |r|
        ensures FromRowsAfter(r[j], table, t)
      {
        if j < |head| {
          assert FromRowAfter(head[j], table, t, 0);
          var c :| 0 <= c < |table[t].cells| && FromEntry(head[j], table, t, c);
          assert FromEntry(r[j], table, t, c);
        } else {
          assert r[j] == rest[j - |head|];
          assert FromRowsAfter(rest[j - |head|], table, t + 1);
          var t', c :| t + 1 <= t' < |table| && 0 <= c < |table[t'].cells| && FromEntry(rest[j - |head|], table, t', c);
          assert FromEntry(r[j], table, t', c);
        }
      }
    }
  }

  /** Every rule the expansion produces comes from an entry of the table. */
  lemma TableRulesSound(table: seq<TableRow>, t: nat)
    requires FitsRanges(table) && t <= |table|
    ensures forall j :: 0 <= j < |TableRules(table, t)| ==> FromTable(TableRules(table, t)[j], table)
  {
    TableRulesSoundAfter(table, t);
    forall j | 0 <= j < |TableRules(table, t)|
      ensures FromTable(TableRules(table, t)[j], table)
    {
      var x := TableRules(table, t)[j];
      assert FromRowsAfter(x, table, t);
      var t', c :| t <= t' < |table| && 0 <= c < |table[t'].cells| && FromEntry(x, table, t', c);
    }
  }

  /** A Super A or Cat A rule with a positive multiplier, a tenure of 12, 24, 36, 48 or 60
      months and one of the five ranges. */
  predicate SeedShaped(x: MultiplierRule) {
    && x.multiplier > 0.0
    && (x.category == Some(SuperA) || x.category == Some(CatA))
    && x.tenure.Some? && x.tenure.value in [12, 24, 36, 48, 60]
    && Range(x.incomeMin, x.incomeMax) in Ranges
  }

  /** Rows keyed by the five tenures of the seed table. */
  predicate TenuresListed(table: seq<TableRow>) {
    forall t :: 0 <= t < |table| ==> table[t].tenure in [12, 24, 36, 48, 60]
  }

  lemma EntryShape(x: MultiplierRule, table: seq<TableRow>)
    requires FitsRanges(table) && TenuresListed(table) && FromTable(x, table)
    ensures SeedShaped(x)
  {
    var t, c :| 0 <= t < |table| && 0 <= c < |table[t].cells| && FromEntry(x, table, t, c);
    assert Range(x.incomeMin, x.incomeMax) == Ranges[c];
  }

  /** A table keyed by those tenures yields only rules of that shape. */
  lemma TableRulesShape(table: seq<TableRow>)
    requires FitsRanges(table) && TenuresListed(table)
    ensures forall j :: 0 <= j < |TableRules(table, 0)| ==> SeedShaped(TableRules(table, 0)[j])
  {
    TableRulesSound(table, 0);
    forall j | 0 <= j < |TableRules(table, 0)|
      ensures SeedShaped(TableRules(table, 0)[j])
    {
      EntryShape(TableRules(table, 0)[j], table);
    }
  }

  /** Every generated rule has that shape. */
  lemma GeneratedRulesShape()
    ensures forall j :: 0 <= j < |GenerateMultipliers()| ==> SeedShaped(GenerateMultipliers()[j])
  {
    SeedTableShape(TableData);
  }

  lemma SeedTableShape(table: seq<TableRow>)
    requires table == TableData
    ensures FitsRanges(table)
    ensures forall j :: 0 <= j < |TableRules(table, 0)| ==> SeedShaped(TableRules(table, 0)[j])
  {
    SeedTableFacts(table);
    TableRulesShape(table);
  }

  // ----- Completeness and count -----

  /** Every positive multiplier in the table yields its rule. */
  lemma {:induction false} RowRulesComplete(row: TableRow, col: nat, c: nat)
    requires |row.cells| <= |Ranges| && col <= c < |row.cells|
    ensures row.cells[c].0 > 0.0 ==>
              MultiplierRule(Ranges[c].min, Ranges[c].max, Some(SuperA), Some(row.tenure), row.cells[c].0) in RowRules(row, col)
    ensures row.cells[c].1 > 0.0 ==>
              MultiplierRule(Ranges[c].min, Ranges[c].max, Some(CatA), Some(row.tenure), row.cells[c].1) in RowRules(row, col)
    decreases c - col
  {
    if col < c {
      RowRulesComplete(row, col + 1, c);
    }
  }

  lemma {:induction false} TableRulesComplete(table: seq<TableRow>, t0: nat, t: nat, c: nat)
    requires FitsRanges(table) && t0 <= t < |table| && c < |table[t].cells|
    ensures table[t].cells[c].0 > 0.0 ==>
              MultiplierRule(Ranges[c].min, Ranges[c].max, Some(SuperA), Some(table[t].tenure), table[t].cells[c].0) in TableRules(table, t0)
    ensures table[t].cells[c].1 > 0.0 ==>
              MultiplierRule(Ranges[c].min, Ranges[c].max, Some(CatA), Some(table[t].tenure), table[t].cells[c].1) in TableRules(table, t0)
    decreases t - t0
  {
    var head := RowRules(table[t0], 0);
    var rest := TableRules(table, t0 + 1);
    assert TableRules(table, t0) == head + rest;
    if t0 < t {
      TableRulesComplete(table, t0 + 1, t, c);
    } else {
      RowRulesComplete(table[t], 0, c);
    }
  }

  /** Positive entries of a row from column `col` on. */
  function PositiveInRow(row: TableRow, col: nat): nat
    requires col <= |row.cells|
    decreases |row.cells| - col
  {
    if col == |row.cells| then 0
    else (if row.cells[col].0 > 0.0 then 1 else 0) + (if row.cells[col].1 > 0.0 then 1 else 0) + PositiveInRow(row, col + 1)
  }

  function PositiveInTable(table: seq<TableRow>, t: nat): nat
    requires t <= |table|
    decreases |table| - t
  {
    if t == |table| then 0 else PositiveInRow(table[t], 0) + PositiveInTable(table, t + 1)
  }

  /** One rule per positive entry. */
  lemma {:induction false} TableRulesCount(table: seq<TableRow>, t: nat)
    requires FitsRanges(table) && t <= |table|
    ensures |TableRules(table, t)| == PositiveInTable(table, t)
    decreases |table| - t
  {
    if t < |table| {
      RowRulesCount(table[t], 0);
      TableRulesCount(table, t + 1);
    }
  }

  lemma {:induction false} RowRulesCount(row: TableRow, col: nat)
    requires |row.cells| <= |Ranges| && col <= |row.cells|
    ensures |RowRules(row, col)| == PositiveInRow(row, col)
    decreases |row.cells| - col
  {
    if col < |row.cells| {
      RowRulesCount(row, col + 1);
    }
  }

  /** A row whose ten multipliers are all positive has ten rules. */
  lemma FullRowCount(row: TableRow)
    requires |row.cells| == 5
    requires forall c :: 0 <= c < 5 ==> row.cells[c].0 > 0.0 && row.cells[c].1 > 0.0
    ensures PositiveInRow(row, 0) == 10
  {
    assert PositiveInRow(row, 5) == 0;
    assert PositiveInRow(row, 4) == 2;
    assert PositiveInRow(row, 3) == 4;
    assert PositiveInRow(row, 2) == 6;
    assert PositiveInRow(row, 1) == 8;
  }

  /** Fifty entries in the table, one of them 0. */
  lemma PositiveEntries(table: seq<TableRow>)
    requires table == TableData
    ensures PositiveInTable(table, 0) == 49
  {
    FullRowCount(table[0]);
    FullRowCount(table[1]);
    FullRowCount(table[2]);
    FullRowCount(table[3]);
    var last := table[4];
    assert PositiveInRow(last, 5) == 0;
    assert PositiveInRow(last, 4) == 2;
    assert PositiveInRow(last, 3) == 4;
    assert PositiveInRow(last, 2) == 6;
    assert PositiveInRow(last, 1) == 8;
    assert PositiveInRow(last, 0) == 9;
    assert PositiveInTable(table, 5) == 0;
    assert PositiveInTable(table, 4) == 9;
    assert PositiveInTable(table, 3) == 19;
    assert PositiveInTable(table, 2) == 29;
    assert PositiveInTable(table, 1) == 39;
  }

  /** Forty-nine rules. */
  lemma GeneratedRuleCount()
    ensures |GenerateMultipliers()| == 49
  {
    SeedTableCount(TableData);
  }

  lemma SeedTableCount(table: seq<TableRow>)
    requires table == TableData
    ensures FitsRanges(table) && |TableRules(table, 0)| == 49
  {
    SeedTableFacts(table);
    PositiveEntries(table);
    TableRulesCount(table, 0);
  }

  /** A table whose 60-month rows have no Cat A figure in the lowest range yields no
      60-month Cat A rule starting at 0. */
  predicate NoLowLongCatA(table: seq<TableRow>) {
    forall t :: 0 <= t < |table| && table[t].tenure == 60 && |table[t].cells| > 0 ==> table[t].cells[0].1 <= 0.0
  }

  lemma EntryNotLowLongCatA(x: MultiplierRule, table: seq<TableRow>)
    requires FitsRanges(table) && NoLowLongCatA(table) && FromTable(x, table)
    ensures !(x.category == Some(CatA) && x.tenure == Some(60) && x.incomeMin == 0.0)
  {
    var t, c :| 0 <= t < |table| && 0 <= c < |table[t].cells| && FromEntry(x, table, t, c);
    if x.incomeMin == 0.0 {
      assert c == 0 by {
        if c > 0 {
          RangesAscend(0, c);
        }
      }
    }
  }

  lemma TableRulesNoLowLongCatA(table: seq<TableRow>)
    requires FitsRanges(table) && NoLowLongCatA(table)
    ensures forall j :: 0 <= j < |TableRules(table, 0)| ==>
              !(TableRules(table, 0)[j].category == Some(CatA) && TableRules(table, 0)[j].tenure == Some(60) &&
                TableRules(table, 0)[j].incomeMin == 0.0)
  {
    TableRulesSound(table, 0);
    forall j | 0 <= j < |TableRules(table, 0)|
      ensures !(TableRules(table, 0)[j].category == Some(CatA) && TableRules(table, 0)[j].tenure == Some(60) &&
                TableRules(table, 0)[j].incomeMin == 0.0)
    {
      EntryNotLowLongCatA(TableRules(table, 0)[j], table);
    }
  }

  /** The lowest range has a 60-month Super A rule at 15 but no 60-month Cat A rule. */
  lemma NoCatALongTenureLowRange()
    ensures MultiplierRule(0.0, 25000.0, Some(SuperA), Some(60), 15.0) in GenerateMultipliers()
    ensures forall j :: 0 <= j < |GenerateMultipliers()| ==>
              !(GenerateMultipliers()[j].category == Some(CatA) && GenerateMultipliers()[j].tenure == Some(60) &&
                GenerateMultipliers()[j].incomeMin == 0.0)
  {
    SeedTableFacts(TableData);
    LowLongSuperA(TableData);
    TableRulesNoLowLongCatA(TableData);
  }

  /** A table whose fifth row is the 60-month row with a Super A figure of 15 in the lowest
      range yields that rule. */
  lemma LowLongSuperA(table: seq<TableRow>)
    requires FitsRanges(table) && |table| == 5 && table[4] == TableRow(60, table[4].cells) && |table[4].cells| == 5
    requires table[4].cells[0] == (15.0, 0.0)
    ensures MultiplierRule(0.0, 25000.0, Some(SuperA), Some(60), 15.0) in TableRules(table, 0)
  {
    TableRulesComplete(table, 0, 4, 0);
  }

  /** What the rest of the proofs need to know about the seed table. */
  lemma SeedTableFacts(table: seq<TableRow>)
    requires table == TableData
    ensures FitsRanges(table) && TenuresListed(table) && AscendingTenures(table) && NoLowLongCatA(table)
    ensures |table| == 5 && table[4] == TableRow(60, table[4].cells) && |table[4].cells| == 5
    ensures table[4].cells[0] == (15.0, 0.0)
  {
  }

  // ----- Order of the output -----

  /** The order in which the generator emits rules: by tenure, then by range, then Super A
      before Cat A. */
  predicate Precedes(x: MultiplierRule, y: MultiplierRule) {
    && x.tenure.Some? && y.tenure.Some?
    && (|| x.tenure.value < y.tenure.value
        || (&& x.tenure == y.tenure
            && (|| x.incomeMin < y.incomeMin
                || (x.incomeMin == y.incomeMin && x.category == Some(SuperA) && y.category == Some(CatA)))))
  }

  predicate InEmitOrder(r: seq<MultiplierRule>) {
    forall i, j :: 0 <= i < j < |r| ==> Precedes(r[i], r[j])
  }

  /** Tenures strictly ascending down the table, as the numeric keys of an object are visited. */
  predicate AscendingTenures(table: seq<TableRow>) {
    forall a, b :: 0 <= a < b < |table| ==> table[a].tenure < table[b].tenure
  }

  lemma RangesAscend(a: nat, b: nat)
    requires a < b < |Ranges|
    ensures Ranges[a].min < Ranges[b].min
  {
  }

  lemma {:induction false} RowRulesOrdered(table: seq<TableRow>, t: nat, col: nat)
    requires FitsRanges(table) && t < |table| && col <= |table[t].cells|
    ensures InEmitOrder(RowRules(table[t], col))
    decreases |table[t].cells| - col
  {
    if col < |table[t].cells| {
      RowRulesOrdered(table, t, col + 1);
      RowRulesSound(table, t, col + 1);
      var head := CellRules(Ranges[col], table[t].tenure, table[t].cells[col]);
      var rest := RowRules(table[t], col + 1);
      var r := RowRules(table[t], col);
      assert r == head + rest;
      forall i, j | 0 <= i < j < |r|
        ensures Precedes(r[i], r[j])
      {
        if j < |head| {
          assert r[i] == head[i] && r[j] == head[j];
        } else if i < |head| {
          assert r[i] == head[i];
          assert r[j] == rest[j - |head|];
          assert FromRowAfter(rest[j - |head|], table, t, col + 1);
          var c :| col + 1 <= c < |table[t].cells| && FromEntry(rest[j - |head|], table, t, c);
          RangesAscend(col, c);
        } else {
          assert r[i] == rest[i - |head|] && r[j] == rest[j - |head|];
        }
      }
    } else {
      assert RowRules(table[t], col) == [];
    }
  }

  lemma {:induction false} TableRulesOrdered(table: seq<TableRow>, t: nat)
    requires FitsRanges(table) && AscendingTenures(table) && t <= |table|
    ensures InEmitOrder(TableRules(table, t))
    decreases |table| - t
  {
    if t < |table| {
      TableRulesOrdered(table, t + 1);
      TableRulesSoundAfter(table, t + 1);
      RowRulesOrdered(table, t, 0);
      RowRulesSound(table, t, 0);
      var head := RowRules(table[t], 0);
      var rest := TableRules(table, t + 1);
      var r := TableRules(table, t);
      assert r == head + rest;
      forall i, j | 0 <= i < j < |r|
        ensures Precedes(r[i], r[j])
      {
        if j < |head| {
          assert r[i] == head[i] && r[j] == head[j];
        } else if i < |head| {
          assert r[i] == head[i];
          assert FromRowAfter(head[i], table, t, 0);
          var c :| 0 <= c < |table[t].cells| && FromEntry(head[i], table, t, c);
          assert r[j] == rest[j - |head|];
          assert FromRowsAfter(rest[j - |head|], table, t + 1);
          var t', c' :| t + 1 <= t' < |table| && 0 <= c' < |table[t'].cells| && FromEntry(rest[j - |head|], table, t', c');
          assert table[t].tenure < table[t'].tenure;
        } else {
          assert r[i] == rest[i - |head|] && r[j] == rest[j - |head|];
        }
      }
    }
  }

  /** The generator emits its rules by ascending tenure, then ascending range, Super A
      before Cat A within a cell; so no two rules share a tenure, range and category. */
  lemma GeneratedRulesOrdered()
    ensures InEmitOrder(GenerateMultipliers())
  {
    SeedTableOrdered(TableData);
  }

  lemma SeedTableOrdered(table: seq<TableRow>)
    requires table == TableData
    ensures FitsRanges(table) && InEmitOrder(TableRules(table, 0))
  {
    SeedTableFacts(table);
    TableRulesOrdered(table, 0);
  }

  // ----- The ranges -----

  /** The ranges are non-empty, ordered, pairwise disjoint, and contiguous on whole-rupee
      salaries. */
  lemma RangesPartition()
    ensures forall c :: 0 <= c < |Ranges| ==> Ranges[c].min <= Ranges[c].max
    ensures forall a, b :: 0 <= a < b < |Ranges| ==> Ranges[a].max < Ranges[b].min
    ensures forall c :: 0 < c < |Ranges| ==> Ranges[c].min == Ranges[c - 1].max + 1.0
    ensures Ranges[0].min == 0.0
  {
  }
}
