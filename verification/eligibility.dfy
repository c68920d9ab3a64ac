/** The strict evaluator: one applicant against one policy. Every gate is checked in a fixed
    order and each failing gate contributes one reason; the FOIR and multiplier caps are
    computed whatever the gates said, and the final maximum amount is the least of the
    non-zero caps and the policy's maximum loan amount. */
module Eligibility {
  import opened Wrappers
  import opened Text
  import opened Numeric
  import opened Policies
  import opened Rules
  import opened Foir

  /** The applicant record the evaluator reads. Absent booleans are false and an absent
      existing EMI is 0, as JavaScript's truthiness makes them. */
  datatype Applicant = Applicant(
    customerType: Option<string>,
    age: int,
    netMonthlySalary: real,
    loanAmountRequested: real,
    tenureMonthsRequested: int,
    currentJobMonths: int,
    totalExperienceMonths: int,
    companyCategory: Option<string>,
    isMcaListed: bool,
    cibilScore: Option<int>,
    isNewToCredit: bool,
    isBachelor: bool,
    residenceType: Option<string>,
    hasOwnHouseProof: bool,
    totalExistingEmi: real)

  /** The gates, in the order the evaluator runs them. */
  datatype Check =
    | CustomerTypeCheck | AgeCheck | SalaryCheck | AmountCheck | TenureCheck
    | JobVintageCheck | ExperienceCheck | CompanyCategoryCheck | McaCheck | CreditCheck
    | BachelorCheck | HostelCheck | OwnHouseCheck | FoirCapCheck | MultiplierCapCheck

  const CheckOrder: seq<Check> := [
    CustomerTypeCheck, AgeCheck, SalaryCheck, AmountCheck, TenureCheck,
    JobVintageCheck, ExperienceCheck, CompanyCategoryCheck, McaCheck, CreditCheck,
    BachelorCheck, HostelCheck, OwnHouseCheck, FoirCapCheck, MultiplierCapCheck]

  /** A check's position in `CheckOrder`. */
  function Rank(c: Check): (k: nat)
    ensures k < |CheckOrder| && CheckOrder[k] == c
  {
    match c
    case CustomerTypeCheck => 0
    case AgeCheck => 1
    case SalaryCheck => 2
    case AmountCheck => 3
    case TenureCheck => 4
    case JobVintageCheck => 5
    case ExperienceCheck => 6
    case CompanyCategoryCheck => 7
    case McaCheck => 8
    case CreditCheck => 9
    case BachelorCheck => 10
    case HostelCheck => 11
    case OwnHouseCheck => 12
    case FoirCapCheck => 13
    case MultiplierCapCheck => 14
  }

  /** One failure reason per message the evaluator can produce, carrying the values the
      message quotes. */
  datatype Reason =
    | CustomerTypeNotAllowed
    | AgeOutOfRange(age: int, minAge: int, maxAge: int)
    | SalaryBelowMinimum(salary: real, minSalary: real)
    | AmountOutOfRange(amount: real, minAmount: real, maxAmount: real)
    | TenureOutOfRange(tenure: int, minTenure: int, maxTenure: int)
    | JobVintageTooLow
    | ExperienceTooLow
    | CategoryNotAllowed(category: string)
    | NotMcaListed
    | NewToCreditNotAllowed
    | CibilBelowMinimum(score: int, minCibil: int)
    | BachelorsNotAllowed
    | HostelNotAllowed
    | OwnHouseProofRequired
    | FoirLimitExceeded(roundedLimit: int)
    | MultiplierLimitExceeded(roundedLimit: int)

  /** The check a reason reports. */
  function CheckOf(r: Reason): Check {
    match r
    case CustomerTypeNotAllowed => CustomerTypeCheck
    case AgeOutOfRange(_, _, _) => AgeCheck
    case SalaryBelowMinimum(_, _) => SalaryCheck
    case AmountOutOfRange(_, _, _) => AmountCheck
    case TenureOutOfRange(_, _, _) => TenureCheck
    case JobVintageTooLow => JobVintageCheck
    case ExperienceTooLow => ExperienceCheck
    case CategoryNotAllowed(_) => CompanyCategoryCheck
    case NotMcaListed => McaCheck
    case NewToCreditNotAllowed => CreditCheck
    case CibilBelowMinimum(_, _) => CreditCheck
    case BachelorsNotAllowed => BachelorCheck
    case HostelNotAllowed => HostelCheck
    case OwnHouseProofRequired => OwnHouseCheck
    case FoirLimitExceeded(_) => FoirCapCheck
    case MultiplierLimitExceeded(_) => MultiplierCapCheck
  }

  /** The credit history as a tagged value: a missing score and the sentinels 0 and -1 all
      mean "no bureau history", as does the applicant's own new-to-credit flag. */
  datatype Bureau = NewToCredit | Scored(score: int)

  function BureauStatus(a: Applicant): (b: Bureau)
    ensures b.Scored? ==> a.cibilScore == Some(b.score) && b.score != 0 && b.score != -1 && !a.isNewToCredit
  {
    if a.isNewToCredit then NewToCredit
    else match a.cibilScore
      case None => NewToCredit
      case Some(s) => if s == 0 || s == -1 then NewToCredit else Scored(s)
  }

  /** JavaScript truthiness of an optional number. */
  predicate NumberPresent(x: Option<int>) {
    x.Some? && x.value != 0
  }

  /** The FOIR cap for this applicant and policy. */
  function FoirCapOf(a: Applicant, p: Policy): real {
    MaxAmountByFoir(p.credit.foirRules, a.netMonthlySalary, a.totalExistingEmi, a.tenureMonthsRequested)
  }

  /** The multiplier cap: salary times the multiplier of the first rule that strictly
      applies, or 0 when none does. */
  function MultiplierCapOf(a: Applicant, p: Policy): (cap: real)
    ensures FirstStrictRule(p.credit.multiplierRules, a.netMonthlySalary, a.companyCategory).None? ==> cap == 0.0
    ensures (forall i :: 0 <= i < |p.credit.multiplierRules| ==>
               !StrictlyApplies(p.credit.multiplierRules[i], a.netMonthlySalary, a.companyCategory)) ==> cap == 0.0
    ensures FirstStrictRule(p.credit.multiplierRules, a.netMonthlySalary, a.companyCategory).Some? ==>
              cap == a.netMonthlySalary * FirstStrictRule(p.credit.multiplierRules, a.netMonthlySalary, a.companyCategory).value.multiplier
  {
    match FirstStrictRule(p.credit.multiplierRules, a.netMonthlySalary, a.companyCategory)
    case None => 0.0
    case Some(rule) => a.netMonthlySalary * rule.multiplier
  }

  /** A requested amount respects a cap unless the cap is positive and exceeded. */
  predicate WithinCap(amount: real, cap: real) {
    cap <= 0.0 || amount <= cap
  }

  /** What each gate requires, stated positively. */
  predicate Passes(c: Check, a: Applicant, p: Policy) {
    match c
    case CustomerTypeCheck => a.customerType.Some? && a.customerType.value in p.customerTypes
    case AgeCheck => p.basic.minAge <= a.age <= p.basic.maxAge
    case SalaryCheck => p.basic.minNetSalary <= a.netMonthlySalary
    case AmountCheck => p.basic.minLoanAmount <= a.loanAmountRequested <= p.basic.maxLoanAmount
    case TenureCheck => p.basic.minTenureMonths <= a.tenureMonthsRequested <= p.basic.maxTenureMonths
    case JobVintageCheck => a.currentJobMonths >= p.employment.minCurrentJobMonths
    case ExperienceCheck => a.totalExperienceMonths >= p.employment.minTotalExpMonths
    case CompanyCategoryCheck =>
      |p.employment.allowedCompanyCategories| == 0 || !Present(a.companyCategory) ||
      a.companyCategory.value in p.employment.allowedCompanyCategories
    case McaCheck => p.employment.mcaRequired ==> a.isMcaListed
    case CreditCheck => CreditAcceptable(BureauStatus(a), p.credit)
    case BachelorCheck => a.isBachelor ==> p.residence.bachelorAllowed
    case HostelCheck => a.residenceType == Some("hostel") ==> p.residence.hostelAllowed
    case OwnHouseCheck => p.residence.ownHouseMandatory ==> a.residenceType == Some("owned") || a.hasOwnHouseProof
    case FoirCapCheck => WithinCap(a.loanAmountRequested, FoirCapOf(a, p))
    case MultiplierCapCheck => WithinCap(a.loanAmountRequested, MultiplierCapOf(a, p))
  }

  /** The credit rule: without bureau history only `allowCibil0To1` decides; with a score,
      a set, non-zero `minCibil` must not exceed it. */
  predicate CreditAcceptable(b: Bureau, credit: Credit) {
    match b
    case NewToCredit => credit.allowCibil0To1
    case Scored(s) => credit.minCibil.None? || credit.minCibil == Some(0) || s >= credit.minCibil.value
  }

  /** The applicant meets every requirement of the policy. */
  predicate MeetsPolicy(a: Applicant, p: Policy) {
    forall c :: Passes(c, a, p)
  }

  /** One gate as the evaluator runs it: the reason it appends, if any. */
  function Verdict(c: Check, a: Applicant, p: Policy): (v: Option<Reason>)
    ensures v.None? <==> Passes(c, a, p)
  {
    match c
    case CustomerTypeCheck =>
      if !(a.customerType.Some? && a.customerType.value in p.customerTypes) then Some(CustomerTypeNotAllowed) else None
    case AgeCheck =>
      if a.age < p.basic.minAge || a.age > p.basic.maxAge
      then Some(AgeOutOfRange(a.age, p.basic.minAge, p.basic.maxAge)) else None
    case SalaryCheck =>
      if a.netMonthlySalary < p.basic.minNetSalary
      then Some(SalaryBelowMinimum(a.netMonthlySalary, p.basic.minNetSalary)) else None
    case AmountCheck =>
      if a.loanAmountRequested < p.basic.minLoanAmount || a.loanAmountRequested > p.basic.maxLoanAmount
      then Some(AmountOutOfRange(a.loanAmountRequested, p.basic.minLoanAmount, p.basic.maxLoanAmount)) else None
    case TenureCheck =>
      if a.tenureMonthsRequested < p.basic.minTenureMonths || a.tenureMonthsRequested > p.basic.maxTenureMonths
      then Some(TenureOutOfRange(a.tenureMonthsRequested, p.basic.minTenureMonths, p.basic.maxTenureMonths)) else None
    case JobVintageCheck =>
      if a.currentJobMonths < p.employment.minCurrentJobMonths then Some(JobVintageTooLow) else None
    case ExperienceCheck =>
      if a.totalExperienceMonths < p.employment.minTotalExpMonths then Some(ExperienceTooLow) else None
    case CompanyCategoryCheck =>
      if |p.employment.allowedCompanyCategories| > 0 && Present(a.companyCategory) &&
         a.companyCategory.value !in p.employment.allowedCompanyCategories
      then Some(CategoryNotAllowed(a.companyCategory.value)) else None
    case McaCheck =>
      if p.employment.mcaRequired && !a.isMcaListed then Some(NotMcaListed) else None
    case CreditCheck =>
      if a.isNewToCredit || !NumberPresent(a.cibilScore) || a.cibilScore == Some(-1) then
        if !p.credit.allowCibil0To1 then Some(NewToCreditNotAllowed) else None
      else if NumberPresent(p.credit.minCibil) && a.cibilScore.value < p.credit.minCibil.value
      then Some(CibilBelowMinimum(a.cibilScore.value, p.credit.minCibil.value)) else None
    case BachelorCheck =>
      if a.isBachelor && !p.residence.bachelorAllowed then Some(BachelorsNotAllowed) else None
    case HostelCheck =>
      if a.residenceType == Some("hostel") && !p.residence.hostelAllowed then Some(HostelNotAllowed) else None
    case OwnHouseCheck =>
      if p.residence.ownHouseMandatory && a.residenceType != Some("owned") && !a.hasOwnHouseProof
      then Some(OwnHouseProofRequired) else None
    case FoirCapCheck =>
      if CapExceeded(a.loanAmountRequested, FoirCapOf(a, p))
      then Some(FoirLimitExceeded(Round(FoirCapOf(a, p)))) else None
    case MultiplierCapCheck =>
      if CapExceeded(a.loanAmountRequested, MultiplierCapOf(a, p))
      then Some(MultiplierLimitExceeded(Round(MultiplierCapOf(a, p)))) else None
  }

  /** A reason names the check that produced it. */
  lemma VerdictNamesItsCheck(c: Check, a: Applicant, p: Policy)
    ensures Verdict(c, a, p).Some? ==> CheckOf(Verdict(c, a, p).value) == c
  {
    match c
    case CustomerTypeCheck =>
    case AgeCheck =>
    case SalaryCheck =>
    case AmountCheck =>
    case TenureCheck =>
    case JobVintageCheck =>
    case ExperienceCheck =>
    case CompanyCategoryCheck =>
    case McaCheck =>
    case CreditCheck =>
    case BachelorCheck =>
    case HostelCheck =>
    case OwnHouseCheck =>
    case FoirCapCheck =>
    case MultiplierCapCheck =>
  }

  /** The refined amount check: the cap is positive and the request is above it. */
  predicate CapExceeded(amount: real, cap: real)
    ensures CapExceeded(amount, cap) <==> !WithinCap(amount, cap)
  {
    cap > 0.0 && amount > cap
  }

  /** The reasons the given checks append, in order. */
  function FailuresOf(checks: seq<Check>, a: Applicant, p: Policy): seq<Reason> {
    if checks == [] then []
    else (match Verdict(checks[0], a, p) case Some(r) => [r] case None => [])
         + FailuresOf(checks[1..], a, p)
  }

  predicate StrictlyRanked(checks: seq<Check>) {
    forall i, j :: 0 <= i < j < |checks| ==> Rank(checks[i]) < Rank(checks[j])
  }

  /** Reasons appear in check order, at most one per check. */
  predicate InCheckOrder(rs: seq<Reason>) {
    forall i, j :: 0 <= i < j < |rs| ==> Rank(CheckOf(rs[i])) < Rank(CheckOf(rs[j]))
  }

  predicate HasReasonFor(rs: seq<Reason>, c: Check) {
    exists i :: 0 <= i < |rs| && CheckOf(rs[i]) == c
  }

  /** Folding checks listed in strictly increasing rank yields reasons in check order, each
      reporting one of the listed checks. */
  lemma {:induction false} FailuresRanked(checks: seq<Check>, a: Applicant, p: Policy)
    requires StrictlyRanked(checks)
    ensures InCheckOrder(FailuresOf(checks, a, p))
    ensures forall i :: 0 <= i < |FailuresOf(checks, a, p)| ==> CheckOf(FailuresOf(checks, a, p)[i]) in checks
  {
    if checks != [] {
      var tail := checks[1..];
      assert StrictlyRanked(tail) by {
        forall i, j | 0 <= i < j < |tail| ensures Rank(tail[i]) < Rank(tail[j]) {
          assert tail[i] == checks[i + 1] && tail[j] == checks[j + 1];
        }
      }
      FailuresRanked(tail, a, p);
      VerdictNamesItsCheck(checks[0], a, p);
      var rest := FailuresOf(tail, a, p);
      forall k | 0 <= k < |rest| ensures Rank(checks[0]) < Rank(CheckOf(rest[k])) {
        var j :| 0 <= j < |tail| && tail[j] == CheckOf(rest[k]);
        assert tail[j] == checks[j + 1];
      }
    }
  }

  lemma HasReasonForConcat(x: seq<Reason>, y: seq<Reason>, c: Check)
    ensures HasReasonFor(x + y, c) <==> HasReasonFor(x, c) || HasReasonFor(y, c)
  {
    if HasReasonFor(x + y, c) {
      var i :| 0 <= i < |x + y| && CheckOf((x + y)[i]) == c;
      if i >= |x| {
        assert (x + y)[i] == y[i - |x|];
      }
    }
    if HasReasonFor(x, c) {
      var i :| 0 <= i < |x| && CheckOf(x[i]) == c;
      assert (x + y)[i] == x[i];
    }
    if HasReasonFor(y, c) {
      var i :| 0 <= i < |y| && CheckOf(y[i]) == c;
      assert (x + y)[|x| + i] == y[i];
    }
  }

  /** A listed check has a reason exactly when its verdict is a failure. */
  lemma {:induction false} FailuresReport(checks: seq<Check>, a: Applicant, p: Policy, c: Check)
    ensures HasReasonFor(FailuresOf(checks, a, p), c) <==> c in checks && Verdict(c, a, p).Some?
  {
    if checks != [] {
      FailuresReport(checks[1..], a, p, c);
      VerdictNamesItsCheck(checks[0], a, p);
      var v := Verdict(checks[0], a, p);
      var head := match v case Some(r) => [r] case None => [];
      var rest := FailuresOf(checks[1..], a, p);
      assert FailuresOf(checks, a, p) == head + rest;
      HasReasonForConcat(head, rest, c);
      assert HasReasonFor(head, c) <==> c == checks[0] && v.Some? by {
        if v.Some? {
          assert CheckOf(head[0]) == checks[0];
        }
      }
      assert c in checks <==> c == checks[0] || c in checks[1..] by {
        assert checks == [checks[0]] + checks[1..];
      }
    }
  }

  /** `CheckOrder` lists every check once, in rank order. */
  lemma CheckOrderRanked()
    ensures StrictlyRanked(CheckOrder)
  {
    assert forall i :: 0 <= i < |CheckOrder| ==> Rank(CheckOrder[i]) == i;
  }

  /** Folding checks that list every check once, in rank order, reports exactly the failing
      checks, in order. */
  lemma ReportedExactly(checks: seq<Check>, a: Applicant, p: Policy)
    requires StrictlyRanked(checks)
    requires forall c: Check :: c in checks
    ensures InCheckOrder(FailuresOf(checks, a, p))
    ensures forall c :: HasReasonFor(FailuresOf(checks, a, p), c) <==> !Passes(c, a, p)
    ensures MeetsPolicy(a, p) <==> FailuresOf(checks, a, p) == []
  {
    var rs := FailuresOf(checks, a, p);
    FailuresRanked(checks, a, p);
    forall c ensures HasReasonFor(rs, c) <==> !Passes(c, a, p) {
      FailuresReport(checks, a, p, c);
    }
    if rs != [] {
      assert HasReasonFor(rs, CheckOf(rs[0]));
    }
  }

  /** Running every check in `CheckOrder` reports exactly the failing checks, in order. */
  lemma AllChecksReported(a: Applicant, p: Policy)
    ensures InCheckOrder(FailuresOf(CheckOrder, a, p))
    ensures forall c :: HasReasonFor(FailuresOf(CheckOrder, a, p), c) <==> !Passes(c, a, p)
    ensures MeetsPolicy(a, p) <==> FailuresOf(CheckOrder, a, p) == []
  {
    CheckOrderRanked();
    forall c: Check ensures c in CheckOrder {
      assert CheckOrder[Rank(c)] == c;
    }
    ReportedExactly(CheckOrder, a, p);
  }

  /** `Math.min(foir || Infinity, multiplier || Infinity, maxLoanAmount)`: a zero cap imposes
      no limit. */
  function FinalMaxAmount(foirCap: real, multiplierCap: real, maxLoanAmount: real): (m: real)
    ensures m <= maxLoanAmount
    ensures foirCap != 0.0 ==> m <= foirCap
    ensures multiplierCap != 0.0 ==> m <= multiplierCap
    ensures m == maxLoanAmount || (foirCap != 0.0 && m == foirCap) || (multiplierCap != 0.0 && m == multiplierCap)
  {
    var withMultiplier := if multiplierCap == 0.0 then maxLoanAmount else Min(multiplierCap, maxLoanAmount);
    if foirCap == 0.0 then withMultiplier else Min(foirCap, withMultiplier)
  }

  datatype EvalResult = EvalResult(
    bankId: string,
    bankName: string,
    eligible: bool,
    failedReasons: seq<Reason>,
    finalMaxAmount: real,
    maxAmountByFoir: int,
    maxAmountByMultiplier: int)

  /** `checkApplicantAgainstPolicy`. */
  function Evaluate(a: Applicant, p: Policy): (res: EvalResult)
    ensures res.eligible <==> res.failedReasons == []
    ensures res.eligible <==> MeetsPolicy(a, p)
    ensures forall c :: HasReasonFor(res.failedReasons, c) <==> !Passes(c, a, p)
    ensures InCheckOrder(res.failedReasons)
    ensures res.finalMaxAmount <= p.basic.maxLoanAmount
    ensures FoirCapOf(a, p) != 0.0 ==> res.finalMaxAmount <= FoirCapOf(a, p)
    ensures MultiplierCapOf(a, p) != 0.0 ==> res.finalMaxAmount <= MultiplierCapOf(a, p)
    // ... and it is the least of them: it equals the maximum or one of the non-zero caps.
    ensures || res.finalMaxAmount == p.basic.maxLoanAmount
            || (FoirCapOf(a, p) != 0.0 && res.finalMaxAmount == FoirCapOf(a, p))
            || (MultiplierCapOf(a, p) != 0.0 && res.finalMaxAmount == MultiplierCapOf(a, p))
    // The reported calculations are the two caps rounded to the nearest unit.
    ensures FoirCapOf(a, p) - 0.5 < res.maxAmountByFoir as real <= FoirCapOf(a, p) + 0.5
    ensures MultiplierCapOf(a, p) - 0.5 < res.maxAmountByMultiplier as real <= MultiplierCapOf(a, p) + 0.5
    ensures res.bankId == p.bankId && res.bankName == p.name
  {
    var rs := FailuresOf(CheckOrder, a, p);
    AllChecksReported(a, p);
    var foirCap := FoirCapOf(a, p);
    var multiplierCap := MultiplierCapOf(a, p);
    EvalResult(
      p.bankId,
      p.name,
      |rs| == 0,
      rs,
      FinalMaxAmount(foirCap, multiplierCap, p.basic.maxLoanAmount),
      Round(foirCap),
      Round(multiplierCap))
  }

  // ----- Properties of the evaluator -----

  /** The age, salary, amount and tenure bounds are inclusive: a value equal to a bound adds
      no reason for that gate. */
  lemma BoundsAreInclusive(a: Applicant, p: Policy)
    ensures (a.age == p.basic.minAge || a.age == p.basic.maxAge) && p.basic.minAge <= p.basic.maxAge ==>
              !HasReasonFor(Evaluate(a, p).failedReasons, AgeCheck)
    ensures a.netMonthlySalary == p.basic.minNetSalary ==>
              !HasReasonFor(Evaluate(a, p).failedReasons, SalaryCheck)
    ensures (a.loanAmountRequested == p.basic.minLoanAmount || a.loanAmountRequested == p.basic.maxLoanAmount) &&
            p.basic.minLoanAmount <= p.basic.maxLoanAmount ==>
              !HasReasonFor(Evaluate(a, p).failedReasons, AmountCheck)
    ensures (a.tenureMonthsRequested == p.basic.minTenureMonths || a.tenureMonthsRequested == p.basic.maxTenureMonths) &&
            p.basic.minTenureMonths <= p.basic.maxTenureMonths ==>
              !HasReasonFor(Evaluate(a, p).failedReasons, TenureCheck)
  {
    var rs := Evaluate(a, p).failedReasons;
    assert HasReasonFor(rs, AgeCheck) <==> !Passes(AgeCheck, a, p);
    assert HasReasonFor(rs, SalaryCheck) <==> !Passes(SalaryCheck, a, p);
    assert HasReasonFor(rs, AmountCheck) <==> !Passes(AmountCheck, a, p);
    assert HasReasonFor(rs, TenureCheck) <==> !Passes(TenureCheck, a, p);
  }

  /** The company-category gate fails exactly when the policy lists categories and the
      applicant names a non-empty category outside the list: a policy without a list, or an
      applicant without a category, is never rejected here, while a category such as
      "Unlisted" that the list omits is. */
  lemma CategoryGate(a: Applicant, p: Policy)
    ensures HasReasonFor(Evaluate(a, p).failedReasons, CompanyCategoryCheck) <==>
              |p.employment.allowedCompanyCategories| > 0 && Present(a.companyCategory) &&
              a.companyCategory.value !in p.employment.allowedCompanyCategories
  {
  }

  /** The credit branch. Without bureau history (new-to-credit flag, no score, 0 or -1) only
      `allowCibil0To1` decides; with a score the gate fails exactly when `minCibil` is set,
      non-zero and above the score. */
  lemma CreditDecision(a: Applicant, p: Policy)
    ensures BureauStatus(a).NewToCredit? ==>
              (HasReasonFor(Evaluate(a, p).failedReasons, CreditCheck) <==> !p.credit.allowCibil0To1)
    ensures BureauStatus(a).Scored? ==>
              (HasReasonFor(Evaluate(a, p).failedReasons, CreditCheck) <==>
                 NumberPresent(p.credit.minCibil) && BureauStatus(a).score < p.credit.minCibil.value)
    ensures a.isNewToCredit || a.cibilScore == None || a.cibilScore == Some(0) || a.cibilScore == Some(-1) <==>
              BureauStatus(a).NewToCredit?
  {
  }

  /** A credit failure is reported with the reason matching the branch taken. */
  lemma CreditReasonMatchesBranch(a: Applicant, p: Policy)
    ensures Verdict(CreditCheck, a, p) == Some(NewToCreditNotAllowed) <==>
              BureauStatus(a).NewToCredit? && !p.credit.allowCibil0To1
    ensures Verdict(CreditCheck, a, p).Some? && Verdict(CreditCheck, a, p).value.CibilBelowMinimum? <==>
              BureauStatus(a).Scored? && NumberPresent(p.credit.minCibil) && BureauStatus(a).score < p.credit.minCibil.value
  {
  }

  /** `minCibil: -1` (as in the ICICI and Axis tables) is truthy, so it IS enforced: a scored
      applicant at -5 fails it. */
  lemma NegativeMinCibilIsEnforced(a: Applicant, p: Policy)
    requires !a.isNewToCredit && a.cibilScore == Some(-5) && p.credit.minCibil == Some(-1)
    ensures HasReasonFor(Evaluate(a, p).failedReasons, CreditCheck)
  {
  }

  /** The final maximum amount is the least of the non-zero caps and the policy maximum;
      zero caps impose no limit. */
  lemma ZeroCapsAreUnbounded(foirCap: real, multiplierCap: real, maxLoanAmount: real)
    ensures FinalMaxAmount(0.0, 0.0, maxLoanAmount) == maxLoanAmount
    ensures multiplierCap != 0.0 ==> FinalMaxAmount(0.0, multiplierCap, maxLoanAmount) == Min(multiplierCap, maxLoanAmount)
    ensures foirCap != 0.0 ==> FinalMaxAmount(foirCap, 0.0, maxLoanAmount) == Min(foirCap, maxLoanAmount)
  {
  }

  /** The FOIR cap is positive exactly when a row covers the salary and leaves EMI room
      (for a positive effective tenure); the first covering row is the one used. */
  lemma FoirCapPositive(a: Applicant, p: Policy)
    requires EffectiveTenure(a.tenureMonthsRequested) > 0
    ensures FoirCapOf(a, p) > 0.0 <==>
              FirstFoirRow(p.credit.foirRules, a.netMonthlySalary).Some? &&
              AllowedEmi(a.netMonthlySalary, FirstFoirRow(p.credit.foirRules, a.netMonthlySalary).value.foirPercent,
                         a.totalExistingEmi) > 0.0
  {
  }

  // ----- Worked scenarios on the Axis table -----

  /** The Axis policy's basic bounds with the schema defaults everywhere else, and its one
      FOIR row (80% for salaries from 40001). */
  function AxisLikePolicy(): Policy {
    Policy("AXIS", "Axis Bank Personal Loan", "PL", ["salaried"],
           Basic(25000.0, 21, 60, 100000.0, 4000000.0, 12, 60),
           Employment(0, 0, [], false),
           Credit(None, false, [FoirRule(40001.0, 99999999.0, 80.0)], []),
           Residence(true, false, false),
           Flags(false, false, []))
  }

  function SalariedApplicant(age: int, salary: real, score: Option<int>): Applicant {
    Applicant(Some("salaried"), age, salary, 200000.0, 36, 0, 0, None, false, score, false, false, None, false, 0.0)
  }

  /** A salaried 30-year-old earning 40000 with a score of 750 is eligible; no FOIR row
      covers 40000, so the cap is the policy maximum. */
  lemma ScenarioEligible()
    ensures Evaluate(SalariedApplicant(30, 40000.0, Some(750)), AxisLikePolicy()).eligible
    ensures Evaluate(SalariedApplicant(30, 40000.0, Some(750)), AxisLikePolicy()).finalMaxAmount == 4000000.0
  {
    var a := SalariedApplicant(30, 40000.0, Some(750));
    var p := AxisLikePolicy();
    assert FirstFoirRow(p.credit.foirRules, a.netMonthlySalary).None?;
    assert forall c :: Passes(c, a, p);
  }

  /** The same applicant without a score is new-to-credit, and `allowCibil0To1` defaults to
      false, so the credit gate is the only one that fails. */
  lemma ScenarioWithoutScore()
    ensures !Evaluate(SalariedApplicant(30, 40000.0, None), AxisLikePolicy()).eligible
    ensures forall c :: HasReasonFor(Evaluate(SalariedApplicant(30, 40000.0, None), AxisLikePolicy()).failedReasons, c) <==>
              c == CreditCheck
  {
    var a := SalariedApplicant(30, 40000.0, None);
    var p := AxisLikePolicy();
    assert FirstFoirRow(p.credit.foirRules, a.netMonthlySalary).None?;
    forall c | c != CreditCheck
      ensures Passes(c, a, p)
    {
    }
    assert !Passes(CreditCheck, a, p);
  }

  /** At 65 the applicant is outside the 21-60 age band. */
  lemma ScenarioTooOld()
    ensures !Evaluate(SalariedApplicant(65, 40000.0, Some(750)), AxisLikePolicy()).eligible
    ensures HasReasonFor(Evaluate(SalariedApplicant(65, 40000.0, Some(750)), AxisLikePolicy()).failedReasons, AgeCheck)
  {
    var a := SalariedApplicant(65, 40000.0, Some(750));
    assert !Passes(AgeCheck, a, AxisLikePolicy());
  }
}
