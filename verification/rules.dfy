/** Income-banded rule selection. The strict evaluator takes the FIRST rule in list order
    that applies; the offer engine filters every applicable rule, prefers exact-category
    rules and takes the one with the highest multiplier, the earliest on a tie. */
module Rules {
  import opened Wrappers
  import opened Text
  import opened Policies

  /** Inclusive income band. */
  predicate InBand(income: real, lo: real, hi: real) {
    lo <= income && income <= hi
  }

  /** JavaScript truthiness of an optional string field. */
  predicate Present(s: Option<string>) {
    s.Some? && Truthy(s.value)
  }

  /** `Array.prototype.find`: the index of the first element satisfying `p`, if any. */
  function FindFirst<T>(s: seq<T>, p: T -> bool): (r: Option<nat>)
    ensures r.Some? ==> r.value < |s| && p(s[r.value]) && forall j :: 0 <= j < r.value ==> !p(s[j])
    ensures r.None? ==> forall j :: 0 <= j < |s| ==> !p(s[j])
  {
    if s == [] then None
    else if p(s[0]) then Some(0)
    else match FindFirst(s[1..], p)
      case None => None
      case Some(k) => Some(k + 1)
  }

  /** `Array.prototype.filter`: the elements satisfying `p`, in their original order. */
  function Filter<T>(s: seq<T>, p: T -> bool): (r: seq<T>)
    ensures |r| <= |s|
    ensures forall i :: 0 <= i < |r| ==> r[i] in s && p(r[i])
    ensures forall i :: 0 <= i < |s| && p(s[i]) ==> s[i] in r
  {
    if s == [] then []
    else (if p(s[0]) then [s[0]] else []) + Filter(s[1..], p)
  }

  /** Filtering works piecewise: the kept elements of `a` come first, in their order, then
      those of `b`. With `Filter([x], p)` being `[x]` or `[]`, this fixes the order of the
      result and keeps duplicates. */
  lemma {:induction false} FilterConcat<T>(a: seq<T>, b: seq<T>, p: T -> bool)
    ensures Filter(a + b, p) == Filter(a, p) + Filter(b, p)
  {
    if a == [] {
      assert a + b == b;
    } else {
      assert (a + b)[1..] == a[1..] + b;
      FilterConcat(a[1..], b, p);
    }
  }

  /** A single element is kept exactly when it satisfies the predicate. */
  lemma FilterSingle<T>(x: T, p: T -> bool)
    ensures Filter([x], p) == (if p(x) then [x] else [])
  {
    assert [x][1..] == [];
  }

  // ----- Strict evaluator -----

  predicate FoirRowCovers(row: FoirRule, salary: real) {
    InBand(salary, row.incomeMin, row.incomeMax)
  }

  /** The FOIR row the strict evaluator uses: the first whose band contains the salary. */
  function FirstFoirRow(rows: seq<FoirRule>, salary: real): (r: Option<FoirRule>)
    ensures r.Some? <==> exists i :: 0 <= i < |rows| && FoirRowCovers(rows[i], salary)
    ensures r.Some? ==> exists i :: 0 <= i < |rows| && rows[i] == r.value && FoirRowCovers(rows[i], salary) &&
                          forall j :: 0 <= j < i ==> !FoirRowCovers(rows[j], salary)
  {
    match FindFirst(rows, row => FoirRowCovers(row, salary))
    case None => None
    case Some(i) => Some(rows[i])
  }

  /** The strict evaluator's multiplier match: the band contains the salary, and the rule has
      no (truthy) category or exactly the applicant's category. The literal "Any" has no
      special meaning here, and tenure is ignored. */
  predicate StrictlyApplies(rule: MultiplierRule, salary: real, category: Option<string>) {
    && InBand(salary, rule.incomeMin, rule.incomeMax)
    && (!Present(rule.category) || rule.category == category)
  }

  function FirstStrictRule(rules: seq<MultiplierRule>, salary: real, category: Option<string>): (r: Option<MultiplierRule>)
    ensures r.Some? <==> exists i :: 0 <= i < |rules| && StrictlyApplies(rules[i], salary, category)
    ensures r.Some? ==> exists i :: 0 <= i < |rules| && rules[i] == r.value && StrictlyApplies(rules[i], salary, category) &&
                          forall j :: 0 <= j < i ==> !StrictlyApplies(rules[j], salary, category)
  {
    match FindFirst(rules, rule => StrictlyApplies(rule, salary, category))
    case None => None
    case Some(i) => Some(rules[i])
  }

  // ----- Offer engine -----

  /** A rule the offer engine considers: its category is the resolved one, "Any" or absent,
      and its band contains the salary. */
  predicate QuoteApplies(rule: MultiplierRule, salary: real, category: string) {
    && (rule.category == Some(category) || rule.category == Some("Any") || !Present(rule.category))
    && InBand(salary, rule.incomeMin, rule.incomeMax)
  }

  predicate ExactCategory(rule: MultiplierRule, category: string) {
    rule.category == Some(category)
  }

  /** `candidates.reduce((prev, cur) => cur.multiplier > prev.multiplier ? cur : prev)`:
      the index of the highest multiplier, the earliest one among equals. */
  function BestIndex(rules: seq<MultiplierRule>): (k: nat)
    requires |rules| > 0
    ensures k < |rules|
    ensures forall j :: 0 <= j < |rules| ==> rules[j].multiplier <= rules[k].multiplier
    ensures forall j :: 0 <= j < k ==> rules[j].multiplier < rules[k].multiplier
  {
    if |rules| == 1 then 0
    else
      var k := BestIndex(rules[..|rules| - 1]);
      assert forall j :: 0 <= j < |rules| - 1 ==> rules[..|rules| - 1][j] == rules[j];
      if rules[|rules| - 1].multiplier > rules[k].multiplier then |rules| - 1 else k
  }

  /** The rules the best-of selection chooses among: exact-category matches when there are
      any, otherwise every applicable rule. */
  function Candidates(rules: seq<MultiplierRule>, salary: real, category: string): seq<MultiplierRule> {
    var matching := Filter(rules, r => QuoteApplies(r, salary, category));
    var exact := Filter(matching, r => ExactCategory(r, category));
    if |exact| > 0 then exact else matching
  }

  /** A rule the selection may pick: it applies, and it is an exact-category rule unless no
      applicable exact-category rule exists. */
  predicate Eligible(rule: MultiplierRule, rules: seq<MultiplierRule>, salary: real, category: string) {
    && QuoteApplies(rule, salary, category)
    && (ExactCategory(rule, category) ||
        forall j :: 0 <= j < |rules| && QuoteApplies(rules[j], salary, category) ==> !ExactCategory(rules[j], category))
  }

  /** The multiplier of the best-matching rule, or None when no rule applies. */
  function SelectMultiplier(rules: seq<MultiplierRule>, salary: real, category: string): (m: Option<real>)
    ensures m.None? <==> forall j :: 0 <= j < |rules| ==> !QuoteApplies(rules[j], salary, category)
    ensures m.Some? ==> exists j :: 0 <= j < |rules| && Eligible(rules[j], rules, salary, category) && rules[j].multiplier == m.value
    ensures m.Some? ==> forall j :: 0 <= j < |rules| && Eligible(rules[j], rules, salary, category) ==> rules[j].multiplier <= m.value
  {
    var cands := Candidates(rules, salary, category);
    CandidatesAreEligible(rules, salary, category);
    if |cands| == 0 then
      NoCandidateNoMatch(rules, salary, category);
      None
    else
      var k := BestIndex(cands);
      BestIsMaximal(rules, salary, category, k);
      Some(cands[k].multiplier)
  }

  lemma NoCandidateNoMatch(rules: seq<MultiplierRule>, salary: real, category: string)
    requires |Candidates(rules, salary, category)| == 0
    ensures forall j :: 0 <= j < |rules| ==> !QuoteApplies(rules[j], salary, category)
  {
    var matching := Filter(rules, r => QuoteApplies(r, salary, category));
    assert |matching| == 0;
  }

  lemma BestIsMaximal(rules: seq<MultiplierRule>, salary: real, category: string, k: nat)
    requires |Candidates(rules, salary, category)| > 0
    requires k == BestIndex(Candidates(rules, salary, category))
    ensures exists j :: 0 <= j < |rules| && Eligible(rules[j], rules, salary, category) &&
              rules[j].multiplier == Candidates(rules, salary, category)[k].multiplier
    ensures forall j :: 0 <= j < |rules| && Eligible(rules[j], rules, salary, category) ==>
              rules[j].multiplier <= Candidates(rules, salary, category)[k].multiplier
  {
    var cands := Candidates(rules, salary, category);
    CandidatesAreEligible(rules, salary, category);
    assert cands[k] in cands;
    var j :| 0 <= j < |rules| && rules[j] == cands[k];
    forall j' | 0 <= j' < |rules| && Eligible(rules[j'], rules, salary, category)
      ensures rules[j'].multiplier <= cands[k].multiplier
    {
      assert rules[j'] in cands;
      var i :| 0 <= i < |cands| && cands[i] == rules[j'];
    }
  }

  /** The candidates are exactly the eligible rules. */
  lemma CandidatesAreEligible(rules: seq<MultiplierRule>, salary: real, category: string)
    ensures forall x :: x in Candidates(rules, salary, category) <==> x in rules && Eligible(x, rules, salary, category)
  {
    var matching := Filter(rules, r => QuoteApplies(r, salary, category));
    var exact := Filter(matching, r => ExactCategory(r, category));
    if |exact| > 0 {
      assert exact[0] in exact;
    } else {
      forall j | 0 <= j < |rules| && QuoteApplies(rules[j], salary, category)
        ensures !ExactCategory(rules[j], category)
      {
        assert rules[j] in matching;
      }
    }
  }

  /** The selection is at least the multiplier of any eligible rule. */
  lemma SelectionDominates(rules: seq<MultiplierRule>, salary: real, category: string, k: nat)
    requires k < |rules| && Eligible(rules[k], rules, salary, category)
    ensures SelectMultiplier(rules, salary, category).Some?
    ensures SelectMultiplier(rules, salary, category).value >= rules[k].multiplier
  {
  }

  /** A bound on every applicable rule bounds the selection. */
  lemma SelectionBounded(rules: seq<MultiplierRule>, salary: real, category: string, bound: real)
    requires forall j :: 0 <= j < |rules| && QuoteApplies(rules[j], salary, category) ==> rules[j].multiplier <= bound
    ensures SelectMultiplier(rules, salary, category).Some? ==> SelectMultiplier(rules, salary, category).value <= bound
  {
  }

  /** The flat multiplier used when no rule applies or the chosen rule's multiplier is 0. */
  const FallbackMultiplier: real := 10.0

  /** The multiplier an offer is computed with. */
  function EffectiveMultiplier(rules: seq<MultiplierRule>, salary: real, category: string): (m: real)
    ensures SelectMultiplier(rules, salary, category).None? ==> m == FallbackMultiplier
    ensures SelectMultiplier(rules, salary, category) == Some(0.0) ==> m == FallbackMultiplier
    ensures SelectMultiplier(rules, salary, category).Some? && SelectMultiplier(rules, salary, category).value != 0.0 ==>
              m == SelectMultiplier(rules, salary, category).value
    ensures m != 0.0
  {
    match SelectMultiplier(rules, salary, category)
    case None => FallbackMultiplier
    case Some(x) => if x == 0.0 then FallbackMultiplier else x
  }

  /** With no negative multiplier in the table, every offer's multiplier is positive. */
  lemma EffectiveMultiplierPositive(rules: seq<MultiplierRule>, salary: real, category: string)
    requires forall j :: 0 <= j < |rules| ==> rules[j].multiplier >= 0.0
    ensures EffectiveMultiplier(rules, salary, category) > 0.0
  {
  }

  /** Exact-category precedence: an exact "Super A" rule with multiplier 5 beats an "Any"
      rule in the same band, whether the "Any" multiplier is lower (3) or higher (8). */
  lemma ExactCategoryWins(anyMultiplier: real)
    requires anyMultiplier == 3.0 || anyMultiplier == 8.0
    ensures SelectMultiplier(
              [MultiplierRule(0.0, 35000.0, Some("Super A"), None, 5.0),
               MultiplierRule(0.0, 35000.0, Some("Any"), None, anyMultiplier)],
              30000.0, "Super A") == Some(5.0)
  {
    var rules := [MultiplierRule(0.0, 35000.0, Some("Super A"), None, 5.0),
                  MultiplierRule(0.0, 35000.0, Some("Any"), None, anyMultiplier)];
    var m := SelectMultiplier(rules, 30000.0, "Super A");
    assert QuoteApplies(rules[0], 30000.0, "Super A");
    assert !Eligible(rules[1], rules, 30000.0, "Super A");
  }
}
