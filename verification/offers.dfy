/** The quote engine: for every stored policy, apply the salary, age and customer-type
    gates, resolve the employer's category for that lender, pick a multiplier from the
    lender's multiplier table and turn it into an offer; then rank the offers by amount.
    A missing employment type where a policy restricts customer types raises an error in
    the middle of the loop, and the whole call then answers with no offers. */
module OfferEngine {
  import opened Wrappers
  import opened Text
  import opened Schema
  import opened Policies
  import opened Companies
  import opened Rules
  import opened Numeric
  import opened Ranking

  /** The quote input. `existingEmi` is accepted but the engine never reads it. The company
      document found for `companyName` (a case-insensitive search over names and aliases)
      is passed in separately. */
  datatype QuoteRequest = QuoteRequest(
    salary: real,
    age: int,
    employmentType: Option<string>,
    existingEmi: real,
    companyName: Option<string>)

  const InterestRate: real := 11.0
  const ProcessingFee: real := 1.0
  /** Offers whose multiplier reaches this are flagged as recommended. */
  const RecommendedMultiplier: real := 20.0
  const AvatarPrefix: string := "https://ui-avatars.com/api/?name="
  const AvatarSuffix: string := "&background=random"
  const CorporateTags: seq<string> := ["Corp Offer", "Low Rate"]
  const HighProbabilityCategories: seq<string> := ["Super A", "Cat A"]

  /** The employer's category for one lender: the lender-specific mapping when it is a
      non-empty string, else the company's default when non-empty, else "Unlisted"; with no
      company document, "Unlisted". */
  function ResolveCategory(company: Option<Company>, bankId: string): (cat: string)
    ensures Truthy(cat)
    ensures company.None? ==> cat == UnlistedCategory
    ensures company.Some? && bankId in company.value.categories && Truthy(company.value.categories[bankId]) ==>
              cat == company.value.categories[bankId]
    ensures company.Some? && !(bankId in company.value.categories && Truthy(company.value.categories[bankId])) &&
            Truthy(company.value.defaultCategory) ==>
              cat == company.value.defaultCategory
    ensures company.Some? ==>
              cat == UnlistedCategory || cat == company.value.defaultCategory ||
              (bankId in company.value.categories && cat == company.value.categories[bankId])
  {
    match company
    case None => UnlistedCategory
    case Some(c) =>
      if bankId in c.categories && Truthy(c.categories[bankId]) then c.categories[bankId]
      else if Truthy(c.defaultCategory) then c.defaultCategory
      else UnlistedCategory
  }

  /** For a validated company the "Unlisted" fallback is never needed: the category is the
      lender mapping or the company default, and the default is one of the four enum values. */
  lemma CategoryOfWellFormedCompany(c: Company, bankId: string)
    requires Companies.WellFormed(c)
    ensures ResolveCategory(Some(c), bankId) ==
              (if bankId in c.categories && Truthy(c.categories[bankId]) then c.categories[bankId] else c.defaultCategory)
    ensures !(bankId in c.categories && Truthy(c.categories[bankId])) ==> ResolveCategory(Some(c), bankId) in DefaultCategories
  {
    assert forall i :: 0 <= i < |DefaultCategories| ==> Truthy(DefaultCategories[i]);
  }

  /** The salary and age gates, checked before anything else. */
  predicate PassesBasicGates(req: QuoteRequest, p: Policy) {
    p.basic.minNetSalary <= req.salary && p.basic.minAge <= req.age <= p.basic.maxAge
  }

  /** The customer-type gate for a given employment type: an empty list accepts everyone,
      otherwise the lower-cased type with its first space made a dash must be listed. */
  predicate AcceptsEmployment(p: Policy, employmentType: string) {
    |p.customerTypes| == 0 || NormalizeEmploymentType(employmentType) in p.customerTypes
  }

  /** The multiplier the engine uses for a policy at a category. */
  function OfferMultiplier(p: Policy, salary: real, category: string): (m: real)
    ensures m != 0.0
    ensures (forall j :: 0 <= j < |p.credit.multiplierRules| ==> !QuoteApplies(p.credit.multiplierRules[j], salary, category)) ==>
              m == FallbackMultiplier
    ensures SelectMultiplier(p.credit.multiplierRules, salary, category) == Some(0.0) ==> m == FallbackMultiplier
    ensures SelectMultiplier(p.credit.multiplierRules, salary, category).Some? &&
            SelectMultiplier(p.credit.multiplierRules, salary, category).value != 0.0 ==>
              m == SelectMultiplier(p.credit.multiplierRules, salary, category).value
  {
    EffectiveMultiplier(p.credit.multiplierRules, salary, category)
  }

  /** The offer built from a policy, the resolved category and the multiplier. */
  function MakeOffer(p: Policy, category: string, m: real, salary: real): (o: Offer)
    ensures o.id == p.bankId && o.bankName == p.name
    ensures o.logoUrl == AvatarPrefix + p.name + AvatarSuffix
    ensures Min(salary * m, p.basic.maxLoanAmount) - 0.5 < o.eligibleAmount as real <= Min(salary * m, p.basic.maxLoanAmount) + 0.5
    ensures o.eligibleAmount as real <= salary * m + 0.5
    ensures IsWhole(p.basic.maxLoanAmount) ==> o.eligibleAmount as real <= p.basic.maxLoanAmount
    ensures o.interestRate == InterestRate && o.processingFee == ProcessingFee
    ensures o.tenureRange == (p.basic.minTenureMonths, p.basic.maxTenureMonths)
    ensures o.approvalProbability == High <==> category in HighProbabilityCategories
    ensures o.tags == [] <==> category == UnlistedCategory
    ensures o.isRecommended <==> m >= RecommendedMultiplier
  {
    var cap := Min(salary * m, p.basic.maxLoanAmount);
    assert IsWhole(p.basic.maxLoanAmount) ==> Round(cap) as real <= p.basic.maxLoanAmount by {
      if IsWhole(p.basic.maxLoanAmount) {
        RoundBelowWhole(cap, p.basic.maxLoanAmount);
      }
    }
    Offer(
      p.bankId,
      p.name,
      AvatarPrefix + p.name + AvatarSuffix,
      Round(cap),
      InterestRate,
      ProcessingFee,
      (p.basic.minTenureMonths, p.basic.maxTenureMonths),
      if category == "Super A" || category == "Cat A" then High else Medium,
      if category != UnlistedCategory then CorporateTags else [],
      m >= RecommendedMultiplier)
  }

  /** What one pass of the loop does with one policy. */
  datatype Step = Skip | Emit(offer: Offer) | Abort

  function PolicyStep(req: QuoteRequest, company: Option<Company>, p: Policy): (st: Step)
    ensures st.Abort? <==> PassesBasicGates(req, p) && |p.customerTypes| > 0 && req.employmentType.None?
    ensures st.Emit? ==> PassesBasicGates(req, p)
    ensures st.Emit? ==> req.employmentType.None? || AcceptsEmployment(p, req.employmentType.value)
    ensures st.Emit? ==> st.offer.id == p.bankId
    ensures st.Emit? && IsWhole(p.basic.maxLoanAmount) ==> st.offer.eligibleAmount as real <= p.basic.maxLoanAmount
    // The offer is the one built from the lender's resolved category and multiplier.
    ensures st.Emit? ==>
              st.offer == MakeOffer(p, ResolveCategory(company, p.bankId),
                                    OfferMultiplier(p, req.salary, ResolveCategory(company, p.bankId)), req.salary)
  {
    if p.basic.minNetSalary > req.salary then Skip
    else if req.age < p.basic.minAge || req.age > p.basic.maxAge then Skip
    else if |p.customerTypes| > 0 && req.employmentType.None? then Abort
    else if |p.customerTypes| > 0 && NormalizeEmploymentType(req.employmentType.value) !in p.customerTypes then Skip
    else
      var category := ResolveCategory(company, p.bankId);
      var m := OfferMultiplier(p, req.salary, category);
      if m > 0.0 then Emit(MakeOffer(p, category, m, req.salary)) else Skip
  }

  /** A policy produces an offer: it passes the salary and age gates, accepts the employment
      type (any type when it lists none), and its multiplier is positive. */
  predicate Qualifies(req: QuoteRequest, company: Option<Company>, p: Policy) {
    && PassesBasicGates(req, p)
    && (|p.customerTypes| == 0 || (req.employmentType.Some? && AcceptsEmployment(p, req.employmentType.value)))
    && OfferMultiplier(p, req.salary, ResolveCategory(company, p.bankId)) > 0.0
  }

  lemma StepEmitsExactlyWhenQualified(req: QuoteRequest, company: Option<Company>, p: Policy)
    ensures PolicyStep(req, company, p).Emit? <==> Qualifies(req, company, p)
  {
  }

  /** With no negative multiplier in a policy's table, the gates alone decide. */
  lemma GatesDecideForNonNegativeTables(req: QuoteRequest, company: Option<Company>, p: Policy)
    requires forall j :: 0 <= j < |p.credit.multiplierRules| ==> p.credit.multiplierRules[j].multiplier >= 0.0
    ensures Qualifies(req, company, p) <==>
              PassesBasicGates(req, p) &&
              (|p.customerTypes| == 0 || (req.employmentType.Some? && AcceptsEmployment(p, req.employmentType.value)))
  {
    EffectiveMultiplierPositive(p.credit.multiplierRules, req.salary, ResolveCategory(company, p.bankId));
  }

  // ----- The loop -----

  /** The loop over the policies' steps: the emitted offers in order, or None once a step
      raised the error. */
  function Gather(steps: seq<Step>): (r: Option<seq<Offer>>)
    ensures r.None? <==> exists i :: 0 <= i < |steps| && steps[i].Abort?
    ensures r.Some? ==> |r.value| <= |steps|
  {
    if |steps| == 0 then Some([])
    else
      var rest := Gather(steps[1..]);
      assert forall i :: 1 <= i < |steps| ==> steps[1..][i - 1] == steps[i];
      match steps[0]
      case Abort => None
      case Skip => rest
      case Emit(o) => if rest.None? then None else Some([o] + rest.value)
  }

  lemma GatherCons(st: Step, rest: seq<Step>)
    ensures Gather([st] + rest) ==
              if st.Abort? then None
              else if st.Skip? then Gather(rest)
              else if Gather(rest).None? then None
              else Some([st.offer] + Gather(rest).value)
  {
    assert ([st] + rest)[1..] == rest;
  }

  /** The number of steps that emit an offer. */
  function EmitCount(steps: seq<Step>): nat {
    if |steps| == 0 then 0 else (if steps[0].Emit? then 1 else 0) + EmitCount(steps[1..])
  }

  /** Without the error, one offer per emitting step. */
  lemma {:induction false} GatherCount(steps: seq<Step>)
    requires Gather(steps).Some?
    ensures |Gather(steps).value| == EmitCount(steps)
  {
    if |steps| > 0 {
      GatherCons(steps[0], steps[1..]);
      assert [steps[0]] + steps[1..] == steps;
      GatherCount(steps[1..]);
    }
  }

  /** The k-th gathered offer is the offer of some emitting step. */
  lemma {:induction false} GatherEmitted(steps: seq<Step>, k: nat)
    requires Gather(steps).Some? && k < |Gather(steps).value|
    ensures exists i :: 0 <= i < |steps| && steps[i] == Emit(Gather(steps).value[k])
  {
    var tail := steps[1..];
    GatherCons(steps[0], tail);
    assert [steps[0]] + tail == steps;
    var os := Gather(steps).value;
    var rest := Gather(tail).value;
    if steps[0].Emit? && k == 0 {
      assert steps[0] == Emit(os[k]);
    } else {
      var skip := if steps[0].Emit? then 1 else 0;
      assert os[k] == rest[k - skip];
      GatherEmitted(tail, k - skip);
      var i :| 0 <= i < |tail| && tail[i] == Emit(rest[k - skip]);
      assert steps[i + 1] == tail[i];
    }
  }

  /** Gathered offers keep the order of the steps that emitted them. */
  lemma {:induction false} GatherOrder(steps: seq<Step>, a: nat, b: nat)
    requires Gather(steps).Some? && a < b < |Gather(steps).value|
    ensures exists i, j :: 0 <= i < j < |steps| &&
              steps[i] == Emit(Gather(steps).value[a]) && steps[j] == Emit(Gather(steps).value[b])
  {
    var tail := steps[1..];
    GatherCons(steps[0], tail);
    assert [steps[0]] + tail == steps;
    var os := Gather(steps).value;
    var rest := Gather(tail).value;
    if steps[0].Emit? {
      assert os[b] == rest[b - 1];
      if a == 0 {
        GatherEmitted(tail, b - 1);
        var j :| 0 <= j < |tail| && tail[j] == Emit(rest[b - 1]);
        assert steps[0] == Emit(os[a]) && steps[j + 1] == tail[j];
      } else {
        assert os[a] == rest[a - 1];
        GatherOrder(tail, a - 1, b - 1);
        var i, j :| 0 <= i < j < |tail| && tail[i] == Emit(rest[a - 1]) && tail[j] == Emit(rest[b - 1]);
        assert steps[i + 1] == tail[i] && steps[j + 1] == tail[j];
      }
    } else {
      GatherOrder(tail, a, b);
      var i, j :| 0 <= i < j < |tail| && tail[i] == Emit(rest[a]) && tail[j] == Emit(rest[b]);
      assert steps[i + 1] == tail[i] && steps[j + 1] == tail[j];
    }
  }

  /** The step each policy takes, in policy order. */
  function Steps(req: QuoteRequest, company: Option<Company>, ps: seq<Policy>): (steps: seq<Step>)
    ensures |steps| == |ps| && forall i :: 0 <= i < |ps| ==> steps[i] == PolicyStep(req, company, ps[i])
  {
    seq(|ps|, i requires 0 <= i < |ps| => PolicyStep(req, company, ps[i]))
  }

  lemma StepsCons(req: QuoteRequest, company: Option<Company>, ps: seq<Policy>)
    requires |ps| > 0
    ensures Steps(req, company, ps) == [PolicyStep(req, company, ps[0])] + Steps(req, company, ps[1..])
  {
  }

  /** The offers of the loop in policy order, or None when some policy raised the error. */
  function CollectOffers(req: QuoteRequest, company: Option<Company>, ps: seq<Policy>): (r: Option<seq<Offer>>)
    ensures r.None? <==> exists i :: 0 <= i < |ps| && PolicyStep(req, company, ps[i]).Abort?
    ensures r.Some? ==> |r.value| <= |ps|
  {
    Gather(Steps(req, company, ps))
  }

  /** The number of policies that produce an offer. */
  function QualifyingCount(req: QuoteRequest, company: Option<Company>, ps: seq<Policy>): nat {
    if |ps| == 0 then 0
    else (if Qualifies(req, company, ps[0]) then 1 else 0) + QualifyingCount(req, company, ps[1..])
  }

  lemma {:induction false} EmitCountIsQualifyingCount(req: QuoteRequest, company: Option<Company>, ps: seq<Policy>)
    ensures EmitCount(Steps(req, company, ps)) == QualifyingCount(req, company, ps)
  {
    if |ps| > 0 {
      StepsCons(req, company, ps);
      StepEmitsExactlyWhenQualified(req, company, ps[0]);
      EmitCountIsQualifyingCount(req, company, ps[1..]);
      var steps := Steps(req, company, ps);
      assert steps[1..] == Steps(req, company, ps[1..]);
    }
  }

  /** The engine's answer: the offers ranked by amount, or none at all after the error. */
  function CalculateOffers(req: QuoteRequest, company: Option<Company>, ps: seq<Policy>): (offers: seq<Offer>)
    ensures SortedByAmount(offers)
    ensures (exists i :: 0 <= i < |ps| && PolicyStep(req, company, ps[i]).Abort?) ==> offers == []
    ensures CollectOffers(req, company, ps).Some? ==> multiset(offers) == multiset(CollectOffers(req, company, ps).value)
  {
    match CollectOffers(req, company, ps)
    case None => []
    case Some(os) => SortByAmount(os)
  }

  /** Every offer is the one a qualifying policy produced. */
  lemma OffersComeFromQualifyingPolicies(req: QuoteRequest, company: Option<Company>, ps: seq<Policy>)
    ensures forall k :: 0 <= k < |CalculateOffers(req, company, ps)| ==>
              exists i :: 0 <= i < |ps| && Qualifies(req, company, ps[i]) &&
                PolicyStep(req, company, ps[i]) == Emit(CalculateOffers(req, company, ps)[k])
  {
    var offers := CalculateOffers(req, company, ps);
    var steps := Steps(req, company, ps);
    match CollectOffers(req, company, ps)
    case None =>
    case Some(os) =>
      forall k | 0 <= k < |offers|
        ensures exists i :: 0 <= i < |ps| && Qualifies(req, company, ps[i]) && PolicyStep(req, company, ps[i]) == Emit(offers[k])
      {
        assert offers[k] in multiset(os);
        var k' :| 0 <= k' < |os| && os[k'] == offers[k];
        GatherEmitted(steps, k');
        var i :| 0 <= i < |steps| && steps[i] == Emit(os[k']);
        StepEmitsExactlyWhenQualified(req, company, ps[i]);
      }
  }

  /** Without the error, the number of offers is the number of qualifying policies. */
  lemma OfferCount(req: QuoteRequest, company: Option<Company>, ps: seq<Policy>)
    requires forall i :: 0 <= i < |ps| ==> !PolicyStep(req, company, ps[i]).Abort?
    ensures |CalculateOffers(req, company, ps)| == QualifyingCount(req, company, ps)
  {
    GatherCount(Steps(req, company, ps));
    EmitCountIsQualifyingCount(req, company, ps);
    var os := CollectOffers(req, company, ps).value;
    assert |multiset(CalculateOffers(req, company, ps))| == |multiset(os)|;
  }

  // ----- The database prefilter -----

  /** The query that fetches the policies: minimum salary within the salary OR minimum age
      within the age. */
  function DbPrefilter(ps: seq<Policy>, salary: real, age: int): (r: seq<Policy>)
    ensures |r| <= |ps|
    ensures forall i :: 0 <= i < |r| ==> r[i] in ps && (r[i].basic.minNetSalary <= salary || r[i].basic.minAge <= age)
  {
    if |ps| == 0 then []
    else if ps[0].basic.minNetSalary <= salary || ps[0].basic.minAge <= age then [ps[0]] + DbPrefilter(ps[1..], salary, age)
    else DbPrefilter(ps[1..], salary, age)
  }

  /** The prefilter changes nothing: every policy it drops fails the salary gate anyway. */
  lemma {:induction false} PrefilterIrrelevant(req: QuoteRequest, company: Option<Company>, ps: seq<Policy>)
    ensures CollectOffers(req, company, DbPrefilter(ps, req.salary, req.age)) == CollectOffers(req, company, ps)
    ensures CalculateOffers(req, company, DbPrefilter(ps, req.salary, req.age)) == CalculateOffers(req, company, ps)
  {
    if |ps| > 0 {
      PrefilterIrrelevant(req, company, ps[1..]);
      var kept := DbPrefilter(ps, req.salary, req.age);
      var keptTail := DbPrefilter(ps[1..], req.salary, req.age);
      var st := PolicyStep(req, company, ps[0]);
      StepsCons(req, company, ps);
      GatherCons(st, Steps(req, company, ps[1..]));
      if ps[0].basic.minNetSalary <= req.salary || ps[0].basic.minAge <= req.age {
        assert kept == [ps[0]] + keptTail;
        assert kept[0] == ps[0] && kept[1..] == keptTail;
        StepsCons(req, company, kept);
        GatherCons(st, Steps(req, company, keptTail));
      } else {
        assert st == Skip;
      }
    }
  }

  /** `existingEmi` does not influence the offers. */
  lemma ExistingEmiIgnored(req: QuoteRequest, company: Option<Company>, ps: seq<Policy>, emi: real)
    ensures CalculateOffers(req.(existingEmi := emi), company, ps) == CalculateOffers(req, company, ps)
  {
    var req' := req.(existingEmi := emi);
    forall i | 0 <= i < |ps|
      ensures PolicyStep(req', company, ps[i]) == PolicyStep(req, company, ps[i])
    {
    }
    assert Steps(req', company, ps) == Steps(req, company, ps);
  }

  // ----- Offer identities -----

  predicate DistinctIds(os: seq<Offer>) {
    forall i, j :: 0 <= i < j < |os| ==> os[i].id != os[j].id
  }

  /** With unique bank ids (the index on stored policies) the loop's offers have unique ids. */
  lemma CollectedIdsDistinct(req: QuoteRequest, company: Option<Company>, ps: seq<Policy>)
    requires DistinctKeys(BankIds(ps))
    requires CollectOffers(req, company, ps).Some?
    ensures DistinctIds(CollectOffers(req, company, ps).value)
  {
    var steps := Steps(req, company, ps);
    var os := CollectOffers(req, company, ps).value;
    forall a, b | 0 <= a < b < |os|
      ensures os[a].id != os[b].id
    {
      GatherOrder(steps, a, b);
      var i, j :| 0 <= i < j < |steps| && steps[i] == Emit(os[a]) && steps[j] == Emit(os[b]);
      assert BankIds(ps)[i] != BankIds(ps)[j];
    }
  }

  /** An offer of a sequence is one of the offers of any permutation of it. */
  lemma MemberOfPermutation(r: seq<Offer>, s: seq<Offer>, k: nat)
    requires multiset(r) == multiset(s) && k < |r|
    ensures exists j :: 0 <= j < |s| && s[j] == r[k]
  {
    assert r[k] in multiset(r);
    assert r[k] in s;
  }

  lemma {:induction false} InsertKeepsIdsDistinct(o: Offer, s: seq<Offer>)
    requires DistinctIds(s)
    requires forall k :: 0 <= k < |s| ==> s[k].id != o.id
    ensures DistinctIds(Insert(o, s))
  {
    if |s| > 0 && o.eligibleAmount < s[0].eligibleAmount {
      var tail := s[1..];
      InsertKeepsIdsDistinct(o, tail);
      var rest := Insert(o, tail);
      var r := Insert(o, s);
      assert r == [s[0]] + rest;
      InsertPermutes(o, tail);
      assert multiset(rest) == multiset(tail + [o]);
      forall k | 0 <= k < |rest|
        ensures rest[k].id != s[0].id
      {
        MemberOfPermutation(rest, tail + [o], k);
        var j :| 0 <= j < |tail + [o]| && (tail + [o])[j] == rest[k];
        if j < |tail| {
          assert tail[j] == s[j + 1];
        }
      }
      forall i, j | 0 <= i < j < |r|
        ensures r[i].id != r[j].id
      {
        assert r[j] == rest[j - 1];
        if i > 0 {
          assert r[i] == rest[i - 1];
        }
      }
    }
  }

  lemma {:induction false} SortKeepsIdsDistinct(s: seq<Offer>)
    requires DistinctIds(s)
    ensures DistinctIds(SortByAmount(s))
  {
    if |s| > 0 {
      var tail := s[1..];
      assert DistinctIds(tail) by {
        forall i, j | 0 <= i < j < |tail|
          ensures tail[i].id != tail[j].id
        {
          assert tail[i] == s[i + 1] && tail[j] == s[j + 1];
        }
      }
      SortKeepsIdsDistinct(tail);
      var sorted := SortByAmount(tail);
      forall k | 0 <= k < |sorted|
        ensures sorted[k].id != s[0].id
      {
        MemberOfPermutation(sorted, tail, k);
        var j :| 0 <= j < |tail| && tail[j] == sorted[k];
        assert tail[j] == s[j + 1];
      }
      InsertKeepsIdsDistinct(s[0], sorted);
    }
  }

  /** Each lender appears at most once in the ranked offers. */
  lemma OfferIdsDistinct(req: QuoteRequest, company: Option<Company>, ps: seq<Policy>)
    requires DistinctKeys(BankIds(ps))
    ensures DistinctIds(CalculateOffers(req, company, ps))
  {
    if CollectOffers(req, company, ps).Some? {
      CollectedIdsDistinct(req, company, ps);
      SortKeepsIdsDistinct(CollectOffers(req, company, ps).value);
    }
  }
}
