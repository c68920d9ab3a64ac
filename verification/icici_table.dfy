/** The ICICI personal-loan policy's multiplier table, built by expanding a compact grid:
    for each category of a group and each income band, one row of five cells gives the
    multiplier at tenures 12, 24, 36, 48 and 60 months, and a cell marked "NA" (or missing)
    produces no rule. */
module IciciPolicy {
  import opened Wrappers
  import opened Policies
  import opened Rules

  /** One grid cell: a multiplier, or "NA". */
  datatype Cell = Mult(value: real) | NA

  /** The tenure each cell position stands for. */
  const Tenures: seq<int> := [12, 24, 36, 48, 60]

  /** Position `i` of a row holds a multiplier (positions past the end read as missing). */
  predicate Available(cells: seq<Cell>, i: nat) {
    i < |cells| && cells[i].Mult?
  }

  /** The number of positions among the five that hold a multiplier. */
  function AvailableFrom(cells: seq<Cell>, i: nat): (n: nat)
    requires i <= |Tenures|
    ensures n <= |Tenures| - i
    decreases |Tenures| - i
  {
    if i == |Tenures| then 0 else (if Available(cells, i) then 1 else 0) + AvailableFrom(cells, i + 1)
  }

  function AvailableCount(cells: seq<Cell>): nat {
    AvailableFrom(cells, 0)
  }

  /** A rule produced from `cells` for a category of `cats` in the band [lo, hi]: the
      multiplier of an available position, tagged with that position's tenure. */
  predicate FromGrid(x: MultiplierRule, cats: seq<string>, lo: real, hi: real, cells: seq<Cell>) {
    && x.incomeMin == lo && x.incomeMax == hi
    && x.category.Some? && x.category.value in cats
    && exists i :: 0 <= i < |Tenures| && Available(cells, i) && x.tenure == Some(Tenures[i]) && x.multiplier == cells[i].value
  }

  /** The rules of one category from position `i` on, in tenure order. */
  function TenureRules(cat: string, lo: real, hi: real, cells: seq<Cell>, i: nat): (r: seq<MultiplierRule>)
    requires i <= |Tenures|
    ensures |r| == AvailableFrom(cells, i)
    decreases |Tenures| - i
  {
    if i == |Tenures| then []
    else
      var rest := TenureRules(cat, lo, hi, cells, i + 1);
      if Available(cells, i) then [MultiplierRule(lo, hi, Some(cat), Some(Tenures[i]), cells[i].value)] + rest
      else rest
  }

  /** Every rule of one category is the grid's rule for an available position. */
  lemma {:induction false} TenureRulesSound(cat: string, lo: real, hi: real, cells: seq<Cell>, i: nat)
    requires i <= |Tenures|
    ensures forall j :: 0 <= j < |TenureRules(cat, lo, hi, cells, i)| ==> FromGrid(TenureRules(cat, lo, hi, cells, i)[j], [cat], lo, hi, cells)
    decreases |Tenures| - i
  {
    if i < |Tenures| {
      TenureRulesSound(cat, lo, hi, cells, i + 1);
      var rest := TenureRules(cat, lo, hi, cells, i + 1);
      var r := TenureRules(cat, lo, hi, cells, i);
      if Available(cells, i) {
        assert r == [r[0]] + rest;
        assert FromGrid(r[0], [cat], lo, hi, cells);
        forall j | 0 < j < |r|
          ensures FromGrid(r[j], [cat], lo, hi, cells)
        {
          assert r[j] == rest[j - 1];
        }
      } else {
        assert r == rest;
      }
    }
  }

  /** Every available position from `i` on yields its rule. */
  lemma {:induction false} TenureRulesComplete(cat: string, lo: real, hi: real, cells: seq<Cell>, i: nat, k: nat)
    requires i <= k < |Tenures| && Available(cells, k)
    ensures MultiplierRule(lo, hi, Some(cat), Some(Tenures[k]), cells[k].value) in TenureRules(cat, lo, hi, cells, i)
    decreases k - i
  {
    if i < k {
      TenureRulesComplete(cat, lo, hi, cells, i + 1, k);
    }
  }

  /** Rules produced for some categories are produced for any list containing them. */
  lemma FromGridWiden(x: MultiplierRule, sub: seq<string>, cats: seq<string>, lo: real, hi: real, cells: seq<Cell>)
    requires FromGrid(x, sub, lo, hi, cells)
    requires forall c :: c in sub ==> c in cats
    ensures FromGrid(x, cats, lo, hi, cells)
  {
  }

  /** The rules of every category, category by category. */
  function CategoryRules(cats: seq<string>, lo: real, hi: real, cells: seq<Cell>): (r: seq<MultiplierRule>)
    ensures |r| == |cats| * AvailableCount(cells)
  {
    if |cats| == 0 then []
    else
      var head := TenureRules(cats[0], lo, hi, cells, 0);
      var rest := CategoryRules(cats[1..], lo, hi, cells);
      assert |head + rest| == |cats| * AvailableCount(cells) by {
        Distribute(AvailableCount(cells), |cats| - 1, 1);
      }
      head + rest
  }

  /** Every rule produced is one of the grid's rules for one of the categories. */
  lemma {:induction false} CategoryRulesSound(cats: seq<string>, lo: real, hi: real, cells: seq<Cell>)
    ensures forall j :: 0 <= j < |CategoryRules(cats, lo, hi, cells)| ==>
              FromGrid(CategoryRules(cats, lo, hi, cells)[j], cats, lo, hi, cells)
  {
    if |cats| > 0 {
      CategoryRulesSound(cats[1..], lo, hi, cells);
      var head := TenureRules(cats[0], lo, hi, cells, 0);
      var rest := CategoryRules(cats[1..], lo, hi, cells);
      var r := CategoryRules(cats, lo, hi, cells);
      assert r == head + rest;
      forall j | 0 <= j < |r|
        ensures FromGrid(r[j], cats, lo, hi, cells)
      {
        if j < |head| {
          assert r[j] == head[j];
          TenureRulesSound(cats[0], lo, hi, cells, 0);
          FromGridWiden(head[j], [cats[0]], cats, lo, hi, cells);
        } else {
          assert r[j] == rest[j - |head|];
          FromGridWiden(rest[j - |head|], cats[1..], cats, lo, hi, cells);
        }
      }
    }
  }

  lemma {:induction false} CategoryRulesComplete(cats: seq<string>, lo: real, hi: real, cells: seq<Cell>, c: nat, k: nat)
    requires c < |cats| && k < |Tenures| && Available(cells, k)
    ensures MultiplierRule(lo, hi, Some(cats[c]), Some(Tenures[k]), cells[k].value) in CategoryRules(cats, lo, hi, cells)
  {
    if c == 0 {
      TenureRulesComplete(cats[0], lo, hi, cells, 0, k);
    } else {
      CategoryRulesComplete(cats[1..], lo, hi, cells, c - 1, k);
    }
  }

  /** Every rule of one category carries that category and a tenure no shorter than the
      position it starts from. */
  lemma {:induction false} TenureRulesFacts(cat: string, lo: real, hi: real, cells: seq<Cell>, i: nat)
    requires i <= |Tenures|
    ensures forall j :: 0 <= j < |TenureRules(cat, lo, hi, cells, i)| ==>
              TenureRules(cat, lo, hi, cells, i)[j].tenure.Some? &&
              TenureRules(cat, lo, hi, cells, i)[j].category == Some(cat) &&
              (i < |Tenures| ==> TenureRules(cat, lo, hi, cells, i)[j].tenure.value >= Tenures[i])
    decreases |Tenures| - i
  {
    if i < |Tenures| {
      TenureRulesFacts(cat, lo, hi, cells, i + 1);
      var rest := TenureRules(cat, lo, hi, cells, i + 1);
      var r := TenureRules(cat, lo, hi, cells, i);
      if Available(cells, i) {
        assert r == [r[0]] + rest;
        forall j | 0 < j < |r|
          ensures r[j].tenure.Some? && r[j].category == Some(cat) && r[j].tenure.value >= Tenures[i]
        {
          assert r[j] == rest[j - 1];
        }
      } else {
        assert r == rest;
      }
    }
  }

  /** Within one category the rules come in ascending tenure. */
  lemma {:induction false} TenureRulesAscending(cat: string, lo: real, hi: real, cells: seq<Cell>, i: nat)
    requires i <= |Tenures|
    ensures forall j :: 0 <= j < |TenureRules(cat, lo, hi, cells, i)| ==>
              TenureRules(cat, lo, hi, cells, i)[j].tenure.Some? &&
              TenureRules(cat, lo, hi, cells, i)[j].category == Some(cat)
    ensures forall j, k :: 0 <= j < k < |TenureRules(cat, lo, hi, cells, i)| ==>
              TenureRules(cat, lo, hi, cells, i)[j].tenure.value < TenureRules(cat, lo, hi, cells, i)[k].tenure.value
    decreases |Tenures| - i
  {
    TenureRulesFacts(cat, lo, hi, cells, i);
    if i < |Tenures| {
      TenureRulesAscending(cat, lo, hi, cells, i + 1);
      TenureRulesFacts(cat, lo, hi, cells, i + 1);
      var rest := TenureRules(cat, lo, hi, cells, i + 1);
      var r := TenureRules(cat, lo, hi, cells, i);
      if Available(cells, i) {
        assert r == [r[0]] + rest;
        forall j, k | 0 <= j < k < |r|
          ensures r[j].tenure.value < r[k].tenure.value
        {
          assert r[k] == rest[k - 1];
          if j > 0 {
            assert r[j] == rest[j - 1];
          } else if i + 1 < |Tenures| {
            assert r[k].tenure.value >= Tenures[i + 1];
          }
        }
      } else {
        assert r == rest;
      }
    }
  }

  /** The position of a category in the list (its first occurrence). */
  function IndexOf(cats: seq<string>, c: string): (k: nat)
    requires c in cats
    ensures k < |cats| && cats[k] == c
    ensures forall i :: 0 <= i < k ==> cats[i] != c
  {
    if cats[0] == c then 0 else 1 + IndexOf(cats[1..], c)
  }

  /** Rule `a` comes before rule `b` in category-major, tenure-ascending order. */
  predicate CategoryMajorBefore(a: MultiplierRule, b: MultiplierRule, cats: seq<string>)
    requires a.category.Some? && a.category.value in cats && b.category.Some? && b.category.value in cats
    requires a.tenure.Some? && b.tenure.Some?
  {
    IndexOf(cats, a.category.value) < IndexOf(cats, b.category.value) ||
    (a.category == b.category && a.tenure.value < b.tenure.value)
  }

  predicate DistinctNames(cats: seq<string>) {
    forall i, j :: 0 <= i < j < |cats| ==> cats[i] != cats[j]
  }

  /** The rules one call appends are ordered category by category in the order of `cats`,
      and by ascending tenure within a category. */
  lemma {:induction false} CategoryRulesOrdered(cats: seq<string>, lo: real, hi: real, cells: seq<Cell>)
    requires DistinctNames(cats)
    ensures forall j :: 0 <= j < |CategoryRules(cats, lo, hi, cells)| ==>
              && CategoryRules(cats, lo, hi, cells)[j].tenure.Some?
              && CategoryRules(cats, lo, hi, cells)[j].category.Some?
              && CategoryRules(cats, lo, hi, cells)[j].category.value in cats
    ensures forall j, k :: 0 <= j < k < |CategoryRules(cats, lo, hi, cells)| ==>
              CategoryMajorBefore(CategoryRules(cats, lo, hi, cells)[j], CategoryRules(cats, lo, hi, cells)[k], cats)
  {
    var r := CategoryRules(cats, lo, hi, cells);
    CategoryRulesSound(cats, lo, hi, cells);
    if |cats| > 0 {
      var tail := cats[1..];
      var head := TenureRules(cats[0], lo, hi, cells, 0);
      var rest := CategoryRules(tail, lo, hi, cells);
      assert r == head + rest;
      assert DistinctNames(tail);
      TenureRulesAscending(cats[0], lo, hi, cells, 0);
      CategoryRulesOrdered(tail, lo, hi, cells);
      CategoryRulesSound(tail, lo, hi, cells);
      forall j | 0 <= j < |rest|
        ensures rest[j].category.value in tail && IndexOf(cats, rest[j].category.value) == 1 + IndexOf(tail, rest[j].category.value)
      {
        assert FromGrid(rest[j], tail, lo, hi, cells);
        var c := rest[j].category.value;
        assert c != cats[0] by {
          var t := IndexOf(tail, c);
          assert cats[t + 1] == c;
        }
      }
      forall j, k | 0 <= j < k < |r|
        ensures CategoryMajorBefore(r[j], r[k], cats)
      {
        if k < |head| {
          assert r[j] == head[j] && r[k] == head[k];
        } else if j < |head| {
          assert r[j] == head[j] && r[k] == rest[k - |head|];
        } else {
          assert r[j] == rest[j - |head|] && r[k] == rest[k - |head|];
          assert CategoryMajorBefore(rest[j - |head|], rest[k - |head|], tail);
        }
      }
    }
  }

  /** One call of the expansion helper: append the grid row's rules for every category. */
  function AddMultiplier(rules: seq<MultiplierRule>, cats: seq<string>, lo: real, hi: real, cells: seq<Cell>): (r: seq<MultiplierRule>)
    ensures |r| == |rules| + |cats| * AvailableCount(cells)
    ensures r[..|rules|] == rules
  {
    rules + CategoryRules(cats, lo, hi, cells)
  }

  /** Every appended rule carries the call's band, one of its categories, and the
      multiplier of an available position with that position's tenure. */
  lemma AddMultiplierSound(rules: seq<MultiplierRule>, cats: seq<string>, lo: real, hi: real, cells: seq<Cell>)
    ensures forall j :: |rules| <= j < |AddMultiplier(rules, cats, lo, hi, cells)| ==>
              FromGrid(AddMultiplier(rules, cats, lo, hi, cells)[j], cats, lo, hi, cells)
  {
    var added := CategoryRules(cats, lo, hi, cells);
    var r := AddMultiplier(rules, cats, lo, hi, cells);
    CategoryRulesSound(cats, lo, hi, cells);
    assert forall j :: |rules| <= j < |r| ==> r[j] == added[j - |rules|];
  }

  /** Conversely, every category receives a rule for every available position. */
  lemma AddMultiplierComplete(rules: seq<MultiplierRule>, cats: seq<string>, lo: real, hi: real, cells: seq<Cell>, c: nat, k: nat)
    requires c < |cats| && k < |Tenures| && Available(cells, k)
    ensures MultiplierRule(lo, hi, Some(cats[c]), Some(Tenures[k]), cells[k].value) in AddMultiplier(rules, cats, lo, hi, cells)
  {
    CategoryRulesComplete(cats, lo, hi, cells, c, k);
  }

  /** The rules one call appends are in category-major, tenure-ascending order. */
  lemma AddMultiplierOrdered(rules: seq<MultiplierRule>, cats: seq<string>, lo: real, hi: real, cells: seq<Cell>)
    requires DistinctNames(cats)
    ensures forall j :: |rules| <= j < |AddMultiplier(rules, cats, lo, hi, cells)| ==>
              AddMultiplier(rules, cats, lo, hi, cells)[j].tenure.Some? &&
              AddMultiplier(rules, cats, lo, hi, cells)[j].category.Some? &&
              AddMultiplier(rules, cats, lo, hi, cells)[j].category.value in cats
    ensures forall j, k :: |rules| <= j < k < |AddMultiplier(rules, cats, lo, hi, cells)| ==>
              CategoryMajorBefore(AddMultiplier(rules, cats, lo, hi, cells)[j], AddMultiplier(rules, cats, lo, hi, cells)[k], cats)
  {
    var added := CategoryRules(cats, lo, hi, cells);
    var r := AddMultiplier(rules, cats, lo, hi, cells);
    CategoryRulesOrdered(cats, lo, hi, cells);
    CategoryRulesSound(cats, lo, hi, cells);
    assert forall j :: |rules| <= j < |r| ==> r[j] == added[j - |rules|];
    assert forall j :: 0 <= j < |added| ==> FromGrid(added[j], cats, lo, hi, cells);
  }

  // ----- The ICICI grid -----

  const Group1: seq<string> := ["Elite", "Govt", "Super", "Prime", "Super A", "Cat A"]
  const Group2: seq<string> := ["Preferred", "Cat B"]
  const Group3: seq<string> := ["Open Market", "Unlisted"]

  /** The four income bands, in the order the grid lists them. */
  const Bands: seq<(real, real)> := [(0.0, 35000.0), (35001.0, 50000.0), (50001.0, 75000.0), (75001.0, 9999999.0)]

  /** The bands are ordered, non-empty and pairwise disjoint; on whole-rupee salaries each
      starts one above where the previous ends. */
  lemma BandsDisjoint()
    ensures forall b :: 0 <= b < |Bands| ==> Bands[b].0 <= Bands[b].1
    ensures forall a, b :: 0 <= a < b < |Bands| ==> Bands[a].1 < Bands[b].0
    ensures forall b :: 0 < b < |Bands| ==> Bands[b].0 == Bands[b - 1].1 + 1.0
  {
  }

  function Row(a: real, b: real, c: real, d: real, e: real): seq<Cell> {
    [Mult(a), Mult(b), Mult(c), Mult(d), Mult(e)]
  }

  const Grid1: seq<seq<Cell>> := [Row(5.0, 9.0, 14.0, 14.0, 19.0), Row(6.0, 10.0, 16.0, 16.0, 20.0),
                                  Row(7.0, 13.0, 18.0, 21.0, 23.0), Row(7.0, 13.0, 18.0, 22.0, 24.0)]
  const Grid2: seq<seq<Cell>> := [Row(5.0, 9.0, 11.0, 13.0, 13.0), Row(5.0, 9.0, 13.0, 15.0, 15.0),
                                  Row(7.0, 11.0, 15.0, 18.0, 19.0), Row(7.0, 11.0, 15.0, 18.0, 20.0)]
  const Grid3: seq<seq<Cell>> := [[Mult(5.0), Mult(7.0), Mult(7.0), Mult(7.0), NA], Row(5.0, 9.0, 7.0, 8.0, 8.0),
                                  Row(5.0, 10.0, 13.0, 14.0, 14.0), Row(7.0, 11.0, 13.0, 15.0, 15.0)]

  /** The number of rules one category gets from a grid. */
  function GridCount(grid: seq<seq<Cell>>): nat {
    if |grid| == 0 then 0 else AvailableCount(grid[0]) + GridCount(grid[1..])
  }

  /** The calls of one group, band by band, each appending to what the previous built. */
  function Expand(rules: seq<MultiplierRule>, cats: seq<string>, bands: seq<(real, real)>, grid: seq<seq<Cell>>): (r: seq<MultiplierRule>)
    requires |bands| == |grid|
    ensures |r| >= |rules| && r[..|rules|] == rules
    decreases |grid|
  {
    if |grid| == 0 then rules
    else
      var r1 := AddMultiplier(rules, cats, bands[0].0, bands[0].1, grid[0]);
      var r := Expand(r1, cats, bands[1..], grid[1..]);
      PrefixOfPrefix(r, r1, rules);
      r
  }

  /** Every category gets one rule per available cell of every row. */
  lemma {:induction false} ExpandLength(rules: seq<MultiplierRule>, cats: seq<string>, bands: seq<(real, real)>, grid: seq<seq<Cell>>)
    requires |bands| == |grid|
    ensures |Expand(rules, cats, bands, grid)| == |rules| + |cats| * GridCount(grid)
    decreases |grid|
  {
    if |grid| > 0 {
      var r1 := AddMultiplier(rules, cats, bands[0].0, bands[0].1, grid[0]);
      ExpandLength(r1, cats, bands[1..], grid[1..]);
      Distribute(|cats|, AvailableCount(grid[0]), GridCount(grid[1..]));
    }
  }

  lemma Distribute(n: nat, a: nat, b: nat)
    ensures n * (a + b) == n * a + n * b
  {
  }

  lemma PrefixOfPrefix<T>(s: seq<T>, mid: seq<T>, pre: seq<T>)
    requires |pre| <= |mid| <= |s| && s[..|mid|] == mid && mid[..|pre|] == pre
    ensures s[..|pre|] == pre
  {
    assert s[..|pre|] == s[..|mid|][..|pre|];
  }

  /** The policy's multiplier rules: the three groups expanded in order. */
  function IciciMultiplierRules(): seq<MultiplierRule> {
    Expand(Expand(Expand([], Group1, Bands, Grid1), Group2, Bands, Grid2), Group3, Bands, Grid3)
  }

  /** A rule produced by expanding `grid` over `bands` for the categories `cats`. */
  predicate FromGrids(x: MultiplierRule, cats: seq<string>, bands: seq<(real, real)>, grid: seq<seq<Cell>>)
    requires |bands| == |grid|
  {
    exists b :: 0 <= b < |grid| && FromGrid(x, cats, bands[b].0, bands[b].1, grid[b])
  }

  /** Every rule an expansion appends comes from one band's row. */
  lemma {:induction false} ExpandSound(rules: seq<MultiplierRule>, cats: seq<string>, bands: seq<(real, real)>, grid: seq<seq<Cell>>)
    requires |bands| == |grid|
    ensures forall j :: |rules| <= j < |Expand(rules, cats, bands, grid)| ==>
              FromGrids(Expand(rules, cats, bands, grid)[j], cats, bands, grid)
    decreases |grid|
  {
    if |grid| > 0 {
      var r1 := AddMultiplier(rules, cats, bands[0].0, bands[0].1, grid[0]);
      var r := Expand(r1, cats, bands[1..], grid[1..]);
      assert r == Expand(rules, cats, bands, grid);
      AddMultiplierSound(rules, cats, bands[0].0, bands[0].1, grid[0]);
      ExpandSound(r1, cats, bands[1..], grid[1..]);
      forall j | |rules| <= j < |r|
        ensures FromGrids(r[j], cats, bands, grid)
      {
        if j < |r1| {
          assert r[j] == r[..|r1|][j] == r1[j];
          assert FromGrid(r[j], cats, bands[0].0, bands[0].1, grid[0]);
        } else {
          var b :| 0 <= b < |grid[1..]| && FromGrid(r[j], cats, bands[1..][b].0, bands[1..][b].1, grid[1..][b]);
          assert bands[1..][b] == bands[b + 1] && grid[1..][b] == grid[b + 1];
        }
      }
    }
  }

  /** A rule already in the list stays at its position through an expansion. */
  lemma ExpandKeeps(rules: seq<MultiplierRule>, cats: seq<string>, bands: seq<(real, real)>, grid: seq<seq<Cell>>, x: MultiplierRule)
    requires |bands| == |grid| && x in rules
    ensures x in Expand(rules, cats, bands, grid)
  {
    var r := Expand(rules, cats, bands, grid);
    var j :| 0 <= j < |rules| && rules[j] == x;
    assert r[..|rules|][j] == x;
  }

  /** The number of rules each category receives from the three grids. */
  lemma GridCounts()
    ensures GridCount(Grid1) == 20 && GridCount(Grid2) == 20 && GridCount(Grid3) == 19
  {
    FourRows(Grid1);
    FourRows(Grid2);
    FourRows(Grid3);
    FullRow(5.0, 9.0, 14.0, 14.0, 19.0);
    FullRow(6.0, 10.0, 16.0, 16.0, 20.0);
    FullRow(7.0, 13.0, 18.0, 21.0, 23.0);
    FullRow(7.0, 13.0, 18.0, 22.0, 24.0);
    FullRow(5.0, 9.0, 11.0, 13.0, 13.0);
    FullRow(5.0, 9.0, 13.0, 15.0, 15.0);
    FullRow(7.0, 11.0, 15.0, 18.0, 19.0);
    FullRow(7.0, 11.0, 15.0, 18.0, 20.0);
    FullRow(5.0, 9.0, 7.0, 8.0, 8.0);
    FullRow(5.0, 10.0, 13.0, 14.0, 14.0);
    FullRow(7.0, 11.0, 13.0, 15.0, 15.0);
    var na := Grid3[0];
    assert AvailableFrom(na, 4) == 0 by {
      assert !Available(na, 4);
      assert AvailableFrom(na, 5) == 0;
    }
    assert AvailableFrom(na, 0) == 4 by {
      assert Available(na, 0) && Available(na, 1) && Available(na, 2) && Available(na, 3);
      assert AvailableFrom(na, 3) == 1;
      assert AvailableFrom(na, 2) == 2;
      assert AvailableFrom(na, 1) == 3;
    }
  }

  lemma FullRow(a: real, b: real, c: real, d: real, e: real)
    ensures AvailableCount(Row(a, b, c, d, e)) == 5
  {
    var r := Row(a, b, c, d, e);
    assert AvailableFrom(r, 5) == 0;
    assert AvailableFrom(r, 4) == 1;
    assert AvailableFrom(r, 3) == 2;
    assert AvailableFrom(r, 2) == 3;
    assert AvailableFrom(r, 1) == 4;
  }

  lemma FourRows(grid: seq<seq<Cell>>)
    requires |grid| == 4
    ensures GridCount(grid) == AvailableCount(grid[0]) + AvailableCount(grid[1]) + AvailableCount(grid[2]) + AvailableCount(grid[3])
  {
    var g1 := grid[1..];
    var g2 := g1[1..];
    var g3 := g2[1..];
    assert g1[0] == grid[1] && g2[0] == grid[2] && g3[0] == grid[3];
    assert GridCount(g3[1..]) == 0;
    assert GridCount(g3) == AvailableCount(grid[3]);
    assert GridCount(g2) == AvailableCount(grid[2]) + GridCount(g3);
    assert GridCount(g1) == AvailableCount(grid[1]) + GridCount(g2);
  }

  /** 6 x 20 + 2 x 20 + 2 x 19 rules. */
  lemma IciciRuleCount()
    ensures |IciciMultiplierRules()| == 198
  {
    GridCounts();
    var r1 := Expand([], Group1, Bands, Grid1);
    var r2 := Expand(r1, Group2, Bands, Grid2);
    ExpandLength([], Group1, Bands, Grid1);
    ExpandLength(r1, Group2, Bands, Grid2);
    ExpandLength(r2, Group3, Bands, Grid3);
  }

  /** A rule of the ICICI table: produced by one of the three groups' grids. */
  predicate FromIciciGrids(x: MultiplierRule) {
    || FromGrids(x, Group1, Bands, Grid1)
    || FromGrids(x, Group2, Bands, Grid2)
    || FromGrids(x, Group3, Bands, Grid3)
  }

  lemma IciciRulesFromGrids()
    ensures forall j :: 0 <= j < |IciciMultiplierRules()| ==> FromIciciGrids(IciciMultiplierRules()[j])
  {
    var r1 := Expand([], Group1, Bands, Grid1);
    var r2 := Expand(r1, Group2, Bands, Grid2);
    var r := Expand(r2, Group3, Bands, Grid3);
    ExpandSound([], Group1, Bands, Grid1);
    ExpandSound(r1, Group2, Bands, Grid2);
    ExpandSound(r2, Group3, Bands, Grid3);
    forall j | 0 <= j < |r|
      ensures FromIciciGrids(r[j])
    {
      if j < |r1| {
        assert r[j] == r[..|r2|][j] == r2[j] == r2[..|r1|][j] == r1[j];
        assert FromGrids(r[j], Group1, Bands, Grid1);
      } else if j < |r2| {
        assert r[j] == r[..|r2|][j] == r2[j];
        assert FromGrids(r[j], Group2, Bands, Grid2);
      } else {
        assert FromGrids(r[j], Group3, Bands, Grid3);
      }
    }
  }

  /** The only band whose lower bound is 0 is the first, and the first is the only band that
      contains a salary of at most 35000. */
  lemma FirstBandOnly(b: nat, salary: real)
    requires b < |Bands| && (Bands[b].0 == 0.0 || (Bands[b].0 <= salary <= Bands[b].1 && salary <= 35000.0))
    ensures b == 0
  {
  }

  /** A group-3 rule of the lowest band is never a 60-month rule. */
  lemma NoLongTenureRule(x: MultiplierRule)
    requires FromIciciGrids(x) && x.category.Some? && x.category.value in Group3 && x.incomeMin == 0.0
    ensures x.tenure != Some(60)
  {
    assert !FromGrids(x, Group1, Bands, Grid1) by {
      assert x.category.value !in Group1;
    }
    assert !FromGrids(x, Group2, Bands, Grid2) by {
      assert x.category.value !in Group2;
    }
    var b :| 0 <= b < |Grid3| && FromGrid(x, Group3, Bands[b].0, Bands[b].1, Grid3[b]);
    FirstBandOnly(b, 0.0);
    var i :| 0 <= i < |Tenures| && Available(Grid3[b], i) && x.tenure == Some(Tenures[i]) && x.multiplier == Grid3[b][i].value;
    assert i != 4;
  }

  /** "Open Market" and "Unlisted" employers get no 60-month rule in the lowest band: that
      grid cell is "NA". */
  lemma NoLongTenureForOpenMarketLowBand()
    ensures forall j :: 0 <= j < |IciciMultiplierRules()| ==>
              (IciciMultiplierRules()[j].category.Some? && IciciMultiplierRules()[j].category.value in Group3 &&
               IciciMultiplierRules()[j].incomeMin == 0.0) ==> IciciMultiplierRules()[j].tenure != Some(60)
  {
    var r := IciciMultiplierRules();
    IciciRulesFromGrids();
    forall j | 0 <= j < |r| && r[j].category.Some? && r[j].category.value in Group3 && r[j].incomeMin == 0.0
      ensures r[j].tenure != Some(60)
    {
      NoLongTenureRule(r[j]);
    }
  }

  /** Every ICICI rule names one of the ten grouped categories, never "Any", and carries a
      tenure. */
  lemma RuleCategoryFacts(x: MultiplierRule)
    requires FromIciciGrids(x)
    ensures x.category.Some? && x.tenure.Some?
    ensures x.category.value in Group1 || x.category.value in Group2 || x.category.value in Group3
    ensures x.category.value != "Any" && Present(x.category)
  {
  }

  /** No rule from the ICICI grids applies to a category outside the ten grouped ones. */
  lemma NoRuleForUngrouped(rules: seq<MultiplierRule>, salary: real, category: string)
    requires forall j :: 0 <= j < |rules| ==> FromIciciGrids(rules[j])
    requires category !in Group1 && category !in Group2 && category !in Group3
    ensures forall j :: 0 <= j < |rules| ==> !QuoteApplies(rules[j], salary, category)
  {
    forall j | 0 <= j < |rules|
      ensures !QuoteApplies(rules[j], salary, category)
    {
      RuleCategoryFacts(rules[j]);
    }
  }

  /** An employer category outside the ten grouped ones (for instance a company default of
      "Unknown", "Listed" or "Blacklisted") matches no ICICI rule, so the quote uses the flat
      fallback multiplier. */
  lemma UngroupedCategoryFallsBack(salary: real, category: string)
    requires category !in Group1 && category !in Group2 && category !in Group3
    ensures EffectiveMultiplier(IciciMultiplierRules(), salary, category) == FallbackMultiplier
  {
    IciciRulesFromGrids();
    NoRuleForUngrouped(IciciMultiplierRules(), salary, category);
  }

  /** In the lowest band every "Super A" rule is at most the 60-month multiplier 19. */
  lemma SuperALowBandBound(x: MultiplierRule, salary: real)
    requires FromIciciGrids(x) && x.category == Some("Super A") && x.incomeMin <= salary <= x.incomeMax && salary <= 35000.0
    ensures x.multiplier <= 19.0
  {
    assert !FromGrids(x, Group2, Bands, Grid2) by {
      assert "Super A" !in Group2;
    }
    assert !FromGrids(x, Group3, Bands, Grid3) by {
      assert "Super A" !in Group3;
    }
    var b :| 0 <= b < |Grid1| && FromGrid(x, Group1, Bands[b].0, Bands[b].1, Grid1[b]);
    FirstBandOnly(b, salary);
    var i :| 0 <= i < |Tenures| && Available(Grid1[b], i) && x.tenure == Some(Tenures[i]) && x.multiplier == Grid1[b][i].value;
  }

  /** The 60-month "Super A" rule of the lowest band is in the table. */
  lemma SuperALongTenurePresent()
    ensures MultiplierRule(0.0, 35000.0, Some("Super A"), Some(60), 19.0) in IciciMultiplierRules()
  {
    var x := MultiplierRule(0.0, 35000.0, Some("Super A"), Some(60), 19.0);
    var first := AddMultiplier([], Group1, Bands[0].0, Bands[0].1, Grid1[0]);
    AddMultiplierComplete([], Group1, Bands[0].0, Bands[0].1, Grid1[0], 4, 4);
    var r1 := Expand([], Group1, Bands, Grid1);
    assert r1 == Expand(first, Group1, Bands[1..], Grid1[1..]);
    ExpandKeeps(first, Group1, Bands[1..], Grid1[1..], x);
    var r2 := Expand(r1, Group2, Bands, Grid2);
    ExpandKeeps(r1, Group2, Bands, Grid2, x);
    ExpandKeeps(r2, Group3, Bands, Grid3, x);
  }

  /** Over rules from the ICICI grids that include the 60-month "Super A" rule of the lowest
      band, a "Super A" employee earning 30000 is quoted 19. */
  lemma SuperALowBandSelect(rules: seq<MultiplierRule>)
    requires forall j :: 0 <= j < |rules| ==> FromIciciGrids(rules[j])
    requires MultiplierRule(0.0, 35000.0, Some("Super A"), Some(60), 19.0) in rules
    ensures SelectMultiplier(rules, 30000.0, "Super A") == Some(19.0)
  {
    var k :| 0 <= k < |rules| && rules[k] == MultiplierRule(0.0, 35000.0, Some("Super A"), Some(60), 19.0);
    SelectionDominates(rules, 30000.0, "Super A", k);
    forall j | 0 <= j < |rules| && QuoteApplies(rules[j], 30000.0, "Super A")
      ensures rules[j].multiplier <= 19.0
    {
      SuperALowBandApplies(rules[j]);
    }
    SelectionBounded(rules, 30000.0, "Super A", 19.0);
  }

  lemma SuperALowBandApplies(x: MultiplierRule)
    requires FromIciciGrids(x) && QuoteApplies(x, 30000.0, "Super A")
    ensures x.multiplier <= 19.0
  {
    RuleCategoryFacts(x);
    SuperALowBandBound(x, 30000.0);
  }

  /** The quote path picks the best tenure on its own: a "Super A" employee earning 30000
      gets multiplier 19, the 60-month figure, from among 5, 9, 14, 14 and 19. */
  lemma SuperALowBandQuote()
    ensures SelectMultiplier(IciciMultiplierRules(), 30000.0, "Super A") == Some(19.0)
  {
    SuperALongTenurePresent();
    IciciRulesFromGrids();
    SuperALowBandSelect(IciciMultiplierRules());
  }
}
