/** The bank policy document: one underwriting policy per lender, with the required basic
    bounds, the employment/credit/residence rules and their defaults, and the income-banded
    FOIR and multiplier rule tables. */
module Policies {
  import opened Wrappers
  import opened Text
  import opened Schema

  /** The two applicant classes a policy may list. */
  const CustomerTypeEnum: seq<string> := ["salaried", "self-employed"]

  const DefaultProductType: string := "PL"

  /** One FOIR band: applicants whose salary lies in [incomeMin, incomeMax] may spend
      foirPercent of it on EMIs. */
  datatype FoirRule = FoirRule(incomeMin: real, incomeMax: real, foirPercent: real)

  /** One multiplier band; `category` and `tenure` are optional. */
  datatype MultiplierRule = MultiplierRule(
    incomeMin: real,
    incomeMax: real,
    category: Option<string>,
    tenure: Option<int>,
    multiplier: real)

  datatype Basic = Basic(
    minNetSalary: real,
    minAge: int,
    maxAge: int,
    minLoanAmount: real,
    maxLoanAmount: real,
    minTenureMonths: int,
    maxTenureMonths: int)

  datatype Employment = Employment(
    minCurrentJobMonths: int,
    minTotalExpMonths: int,
    allowedCompanyCategories: seq<string>,
    mcaRequired: bool)

  datatype Credit = Credit(
    minCibil: Option<int>,
    allowCibil0To1: bool,
    foirRules: seq<FoirRule>,
    multiplierRules: seq<MultiplierRule>)

  datatype Residence = Residence(bachelorAllowed: bool, hostelAllowed: bool, ownHouseMandatory: bool)

  datatype Flags = Flags(allowsSelfEmployed: bool, allowsPensioner: bool, notes: seq<string>)

  /** A stored policy: every defaulted field holds its value. */
  datatype Policy = Policy(
    bankId: string,
    name: string,
    productType: string,
    customerTypes: seq<string>,
    basic: Basic,
    employment: Employment,
    credit: Credit,
    residence: Residence,
    flags: Flags)

  /** What validation guarantees of every stored policy. */
  predicate WellFormed(p: Policy) {
    && Truthy(p.bankId)
    && Truthy(p.name)
    && forall i :: 0 <= i < |p.customerTypes| ==> p.customerTypes[i] in CustomerTypeEnum
  }

  // ----- The document as submitted: every scalar may be absent; absent arrays are empty. -----

  datatype RawBasic = RawBasic(
    minNetSalary: Option<real>,
    minAge: Option<int>,
    maxAge: Option<int>,
    minLoanAmount: Option<real>,
    maxLoanAmount: Option<real>,
    minTenureMonths: Option<int>,
    maxTenureMonths: Option<int>)

  datatype RawEmployment = RawEmployment(
    minCurrentJobMonths: Option<int>,
    minTotalExpMonths: Option<int>,
    allowedCompanyCategories: seq<string>,
    mcaRequired: Option<bool>)

  datatype RawCredit = RawCredit(
    minCibil: Option<int>,
    allowCibil0To1: Option<bool>,
    foirRules: seq<FoirRule>,
    multiplierRules: seq<MultiplierRule>)

  datatype RawResidence = RawResidence(
    bachelorAllowed: Option<bool>,
    hostelAllowed: Option<bool>,
    ownHouseMandatory: Option<bool>)

  datatype RawFlags = RawFlags(allowsSelfEmployed: Option<bool>, allowsPensioner: Option<bool>, notes: seq<string>)

  datatype RawPolicy = RawPolicy(
    bankId: Option<string>,
    name: Option<string>,
    productType: Option<string>,
    customerTypes: seq<string>,
    basic: RawBasic,
    employment: RawEmployment,
    credit: RawCredit,
    residence: RawResidence,
    flags: RawFlags)

  /** The nine required paths, in schema order. */
  const RequiredPaths: seq<string> := [
    "bankId", "name",
    "basic.minNetSalary", "basic.minAge", "basic.maxAge",
    "basic.minLoanAmount", "basic.maxLoanAmount",
    "basic.minTenureMonths", "basic.maxTenureMonths"]

  /** A required path counts as missing when it is absent; a required string is also
      missing when it is empty. */
  predicate IsMissing(raw: RawPolicy, path: string) {
    if path == "bankId" then raw.bankId.None? || !Truthy(raw.bankId.value)
    else if path == "name" then raw.name.None? || !Truthy(raw.name.value)
    else if path == "basic.minNetSalary" then raw.basic.minNetSalary.None?
    else if path == "basic.minAge" then raw.basic.minAge.None?
    else if path == "basic.maxAge" then raw.basic.maxAge.None?
    else if path == "basic.minLoanAmount" then raw.basic.minLoanAmount.None?
    else if path == "basic.maxLoanAmount" then raw.basic.maxLoanAmount.None?
    else if path == "basic.minTenureMonths" then raw.basic.minTenureMonths.None?
    else if path == "basic.maxTenureMonths" then raw.basic.maxTenureMonths.None?
    else false
  }

  /** Every required field present, and every customer type one of the enum values. */
  predicate Acceptable(raw: RawPolicy) {
    && raw.bankId.Some? && Truthy(raw.bankId.value)
    && raw.name.Some? && Truthy(raw.name.value)
    && raw.basic.minNetSalary.Some? && raw.basic.minAge.Some? && raw.basic.maxAge.Some?
    && raw.basic.minLoanAmount.Some? && raw.basic.maxLoanAmount.Some?
    && raw.basic.minTenureMonths.Some? && raw.basic.maxTenureMonths.Some?
    && forall i :: 0 <= i < |raw.customerTypes| ==> raw.customerTypes[i] in CustomerTypeEnum
  }

  /** The `Required` errors for `paths`, in order. */
  function MissingErrors(raw: RawPolicy, paths: seq<string>): (errs: seq<FieldError>)
    ensures forall e :: e in errs ==> e.Required? && e.path in paths && IsMissing(raw, e.path)
    ensures forall path :: path in paths && IsMissing(raw, path) ==> Required(path) in errs
  {
    if paths == [] then []
    else (if IsMissing(raw, paths[0]) then [Required(paths[0])] else []) + MissingErrors(raw, paths[1..])
  }

  /** The errors follow the order of the paths: those of the first paths come first. With
      one path giving `[Required(path)]` exactly when it is missing, this fixes the list. */
  lemma {:induction false} MissingErrorsConcat(raw: RawPolicy, a: seq<string>, b: seq<string>)
    ensures MissingErrors(raw, a + b) == MissingErrors(raw, a) + MissingErrors(raw, b)
  {
    if a == [] {
      assert a + b == b;
    } else {
      assert (a + b)[1..] == a[1..] + b;
      MissingErrorsConcat(raw, a[1..], b);
    }
  }

  /** One path yields one error exactly when it is missing. */
  lemma MissingErrorsSingle(raw: RawPolicy, path: string)
    ensures MissingErrors(raw, [path]) == (if IsMissing(raw, path) then [Required(path)] else [])
  {
    assert [path][1..] == [];
  }

  /** The enum errors for the array `values` from slot `from` on. */
  function EnumErrors(path: string, values: seq<string>, allowed: seq<string>, from: nat): (errs: seq<FieldError>)
    requires from <= |values|
    ensures forall e :: e in errs ==>
              e.NotInEnum? && e.path == path && from <= e.index < |values| &&
              e.value == values[e.index] && e.value !in allowed
    ensures forall i :: from <= i < |values| && values[i] !in allowed ==> NotInEnum(path, i, values[i]) in errs
    decreases |values| - from
  {
    if from == |values| then []
    else (if values[from] in allowed then [] else [NotInEnum(path, from, values[from])])
         + EnumErrors(path, values, allowed, from + 1)
  }

  /** With no required path missing, every required field is present. */
  lemma NoneMissing(raw: RawPolicy)
    requires forall path :: path in RequiredPaths ==> !IsMissing(raw, path)
    ensures raw.bankId.Some? && Truthy(raw.bankId.value) && raw.name.Some? && Truthy(raw.name.value)
    ensures raw.basic.minNetSalary.Some? && raw.basic.minAge.Some? && raw.basic.maxAge.Some?
    ensures raw.basic.minLoanAmount.Some? && raw.basic.maxLoanAmount.Some?
    ensures raw.basic.minTenureMonths.Some? && raw.basic.maxTenureMonths.Some?
  {
    assert !IsMissing(raw, RequiredPaths[0]);
    assert !IsMissing(raw, RequiredPaths[1]);
    assert !IsMissing(raw, RequiredPaths[2]);
    assert !IsMissing(raw, RequiredPaths[3]);
    assert !IsMissing(raw, RequiredPaths[4]);
    assert !IsMissing(raw, RequiredPaths[5]);
    assert !IsMissing(raw, RequiredPaths[6]);
    assert !IsMissing(raw, RequiredPaths[7]);
    assert !IsMissing(raw, RequiredPaths[8]);
  }

  /** Every validation error of a submitted policy: the missing required paths, then the
      customer types outside the enum. */
  function SchemaErrors(raw: RawPolicy): (errs: seq<FieldError>)
    ensures |errs| == 0 <==> Acceptable(raw)
    ensures forall path :: path in RequiredPaths && IsMissing(raw, path) ==> Required(path) in errs
    ensures forall e :: e in errs && e.Required? ==> e.path in RequiredPaths && IsMissing(raw, e.path)
    ensures forall i :: 0 <= i < |raw.customerTypes| && raw.customerTypes[i] !in CustomerTypeEnum ==>
              NotInEnum("customerTypes", i, raw.customerTypes[i]) in errs
  {
    var missing := MissingErrors(raw, RequiredPaths);
    var enum := EnumErrors("customerTypes", raw.customerTypes, CustomerTypeEnum, 0);
    assert |missing + enum| == 0 ==> Acceptable(raw) by {
      if |missing + enum| == 0 {
        NoneMissing(raw);
      }
    }
    assert |missing + enum| > 0 ==> !Acceptable(raw) by {
      if |missing + enum| > 0 {
        var e := (missing + enum)[0];
        if |missing| > 0 {
          assert e in missing;
        } else {
          assert e in enum;
        }
      }
    }
    missing + enum
  }

  /** Validation of a submitted policy: every failing path is reported, otherwise the stored
      policy is built with the schema defaults for absent optional fields. */
  function ValidatePolicy(raw: RawPolicy): (r: Result<Policy, seq<FieldError>>)
    ensures r.Success? <==> Acceptable(raw)
    ensures r.Success? ==> WellFormed(r.value)
    ensures r.Failure? ==> |r.error| > 0
    ensures r.Failure? ==> forall path :: path in RequiredPaths && IsMissing(raw, path) ==> Required(path) in r.error
    ensures r.Failure? ==> forall e :: e in r.error && e.Required? ==> e.path in RequiredPaths && IsMissing(raw, e.path)
    ensures r.Failure? ==> forall i :: 0 <= i < |raw.customerTypes| && raw.customerTypes[i] !in CustomerTypeEnum ==>
              NotInEnum("customerTypes", i, raw.customerTypes[i]) in r.error
    // Present values are stored as given.
    ensures r.Success? ==> Some(r.value.bankId) == raw.bankId && Some(r.value.name) == raw.name
    ensures r.Success? ==> r.value.credit.minCibil == raw.credit.minCibil
    ensures r.Success? ==> r.value.customerTypes == raw.customerTypes
    ensures r.Success? ==> r.value.credit.foirRules == raw.credit.foirRules && r.value.credit.multiplierRules == raw.credit.multiplierRules
    ensures r.Success? ==>
              && Some(r.value.basic.minNetSalary) == raw.basic.minNetSalary
              && Some(r.value.basic.minAge) == raw.basic.minAge
              && Some(r.value.basic.maxAge) == raw.basic.maxAge
              && Some(r.value.basic.minLoanAmount) == raw.basic.minLoanAmount
              && Some(r.value.basic.maxLoanAmount) == raw.basic.maxLoanAmount
              && Some(r.value.basic.minTenureMonths) == raw.basic.minTenureMonths
              && Some(r.value.basic.maxTenureMonths) == raw.basic.maxTenureMonths
    ensures r.Success? ==>
              r.value.employment.allowedCompanyCategories == raw.employment.allowedCompanyCategories &&
              r.value.flags.notes == raw.flags.notes
    ensures r.Success? && raw.productType.Some? ==> r.value.productType == raw.productType.value
    ensures r.Success? && raw.employment.minCurrentJobMonths.Some? ==>
              r.value.employment.minCurrentJobMonths == raw.employment.minCurrentJobMonths.value
    ensures r.Success? && raw.employment.minTotalExpMonths.Some? ==>
              r.value.employment.minTotalExpMonths == raw.employment.minTotalExpMonths.value
    ensures r.Success? && raw.employment.mcaRequired.Some? ==> r.value.employment.mcaRequired == raw.employment.mcaRequired.value
    ensures r.Success? && raw.credit.allowCibil0To1.Some? ==> r.value.credit.allowCibil0To1 == raw.credit.allowCibil0To1.value
    ensures r.Success? && raw.residence.bachelorAllowed.Some? ==> r.value.residence.bachelorAllowed == raw.residence.bachelorAllowed.value
    ensures r.Success? && raw.residence.hostelAllowed.Some? ==> r.value.residence.hostelAllowed == raw.residence.hostelAllowed.value
    ensures r.Success? && raw.residence.ownHouseMandatory.Some? ==>
              r.value.residence.ownHouseMandatory == raw.residence.ownHouseMandatory.value
    ensures r.Success? && raw.flags.allowsSelfEmployed.Some? ==> r.value.flags.allowsSelfEmployed == raw.flags.allowsSelfEmployed.value
    ensures r.Success? && raw.flags.allowsPensioner.Some? ==> r.value.flags.allowsPensioner == raw.flags.allowsPensioner.value
    // Absent optional values take the schema defaults.
    ensures r.Success? && raw.productType.None? ==> r.value.productType == "PL"
    ensures r.Success? && raw.employment.minCurrentJobMonths.None? ==> r.value.employment.minCurrentJobMonths == 0
    ensures r.Success? && raw.employment.minTotalExpMonths.None? ==> r.value.employment.minTotalExpMonths == 0
    ensures r.Success? && raw.employment.mcaRequired.None? ==> !r.value.employment.mcaRequired
    ensures r.Success? && raw.credit.allowCibil0To1.None? ==> !r.value.credit.allowCibil0To1
    ensures r.Success? && raw.residence.bachelorAllowed.None? ==> r.value.residence.bachelorAllowed
    ensures r.Success? && raw.residence.hostelAllowed.None? ==> !r.value.residence.hostelAllowed
    ensures r.Success? && raw.residence.ownHouseMandatory.None? ==> !r.value.residence.ownHouseMandatory
    ensures r.Success? && raw.flags.allowsSelfEmployed.None? ==> !r.value.flags.allowsSelfEmployed
    ensures r.Success? && raw.flags.allowsPensioner.None? ==> !r.value.flags.allowsPensioner
  {
    var errs := SchemaErrors(raw);
    if |errs| > 0 then Failure(errs)
    else
      Success(Policy(
        raw.bankId.value,
        raw.name.value,
        raw.productType.GetOr(DefaultProductType),
        raw.customerTypes,
        Basic(raw.basic.minNetSalary.value, raw.basic.minAge.value, raw.basic.maxAge.value,
              raw.basic.minLoanAmount.value, raw.basic.maxLoanAmount.value,
              raw.basic.minTenureMonths.value, raw.basic.maxTenureMonths.value),
        Employment(raw.employment.minCurrentJobMonths.GetOr(0), raw.employment.minTotalExpMonths.GetOr(0),
                   raw.employment.allowedCompanyCategories, raw.employment.mcaRequired.GetOr(false)),
        Credit(raw.credit.minCibil, raw.credit.allowCibil0To1.GetOr(false),
               raw.credit.foirRules, raw.credit.multiplierRules),
        Residence(raw.residence.bachelorAllowed.GetOr(true), raw.residence.hostelAllowed.GetOr(false),
                  raw.residence.ownHouseMandatory.GetOr(false)),
        Flags(raw.flags.allowsSelfEmployed.GetOr(false), raw.flags.allowsPensioner.GetOr(false), raw.flags.notes)))
  }

  /** The stored policy written back as a document with every field present. */
  function ToRaw(p: Policy): RawPolicy {
    RawPolicy(
      Some(p.bankId), Some(p.name), Some(p.productType), p.customerTypes,
      RawBasic(Some(p.basic.minNetSalary), Some(p.basic.minAge), Some(p.basic.maxAge),
               Some(p.basic.minLoanAmount), Some(p.basic.maxLoanAmount),
               Some(p.basic.minTenureMonths), Some(p.basic.maxTenureMonths)),
      RawEmployment(Some(p.employment.minCurrentJobMonths), Some(p.employment.minTotalExpMonths),
                    p.employment.allowedCompanyCategories, Some(p.employment.mcaRequired)),
      RawCredit(p.credit.minCibil, Some(p.credit.allowCibil0To1), p.credit.foirRules, p.credit.multiplierRules),
      RawResidence(Some(p.residence.bachelorAllowed), Some(p.residence.hostelAllowed), Some(p.residence.ownHouseMandatory)),
      RawFlags(Some(p.flags.allowsSelfEmployed), Some(p.flags.allowsPensioner), p.flags.notes))
  }

  /** Round trip: a well-formed policy written out in full validates back to itself. */
  lemma ValidateToRaw(p: Policy)
    requires WellFormed(p)
    ensures ValidatePolicy(ToRaw(p)) == Success(p)
  {
  }

  /** Validation is a normalisation: re-validating a stored policy changes nothing. */
  lemma ValidateIdempotent(raw: RawPolicy)
    requires ValidatePolicy(raw).Success?
    ensures ValidatePolicy(ToRaw(ValidatePolicy(raw).value)) == ValidatePolicy(raw)
  {
    ValidateToRaw(ValidatePolicy(raw).value);
  }

  /** Storing a policy under the unique `bankId` index: refused when the document is
      invalid or when a policy with the same `bankId` is already stored. */
  function InsertPolicy(stored: seq<Policy>, raw: RawPolicy): (r: Result<seq<Policy>, StoreError>)
    ensures r.Success? <==> Acceptable(raw) && (forall i :: 0 <= i < |stored| ==> Some(stored[i].bankId) != raw.bankId)
    ensures r.Success? ==> r.value == stored + [ValidatePolicy(raw).value]
    ensures DistinctKeys(BankIds(stored)) && r.Success? ==> DistinctKeys(BankIds(r.value))
  {
    match ValidatePolicy(raw)
    case Failure(errs) => Failure(Invalid(errs))
    case Success(p) =>
      if p.bankId in BankIds(stored) then Failure(DuplicateKey(p.bankId))
      else
        assert BankIds(stored + [p]) == BankIds(stored) + [p.bankId];
        assert DistinctKeys(BankIds(stored)) ==> DistinctKeys(BankIds(stored + [p])) by {
          if DistinctKeys(BankIds(stored)) {
            AppendFreshKey(BankIds(stored), p.bankId);
          }
        }
        Success(stored + [p])
  }

  function BankIds(ps: seq<Policy>): (ids: seq<string>)
    ensures |ids| == |ps| && forall i :: 0 <= i < |ps| ==> ids[i] == ps[i].bankId
  {
    seq(|ps|, i requires 0 <= i < |ps| => ps[i].bankId)
  }
}
