/** The company record used to resolve an employer's category per lender: a trimmed unique
    name, trimmed aliases, a lender-id -> category map and an enumerated default category. */
module Companies {
  import opened Wrappers
  import opened Text
  import opened Schema

  /** The values `defaultCategory` may take. */
  const DefaultCategories: seq<string> := ["Unknown", "Listed", "Unlisted", "Blacklisted"]

  const UnlistedCategory: string := "Unlisted"

  datatype Company = Company(
    name: string,
    aliases: seq<string>,
    categories: map<string, string>,
    defaultCategory: string,
    isActive: bool)

  /** A submitted company document: scalars may be absent. */
  datatype RawCompany = RawCompany(
    name: Option<string>,
    aliases: seq<string>,
    categories: Option<map<string, string>>,
    defaultCategory: Option<string>,
    isActive: Option<bool>)

  /** What validation guarantees of every stored company. */
  predicate WellFormed(c: Company) {
    && Truthy(c.name) && c.name == Trim(c.name)
    && (forall i :: 0 <= i < |c.aliases| ==> c.aliases[i] == Trim(c.aliases[i]))
    && c.defaultCategory in DefaultCategories
  }

  function TrimAll(xs: seq<string>): (ys: seq<string>)
    ensures |ys| == |xs| && forall i :: 0 <= i < |xs| ==> ys[i] == Trim(xs[i])
  {
    seq(|xs|, i requires 0 <= i < |xs| => Trim(xs[i]))
  }

  /** Validation of a submitted company: `name` and every alias are trimmed first, the
      trimmed name is required, a given `defaultCategory` must be one of the enum values;
      `categories` defaults to the empty map, `defaultCategory` to "Unlisted" and
      `isActive` to true. */
  function ValidateCompany(raw: RawCompany): (r: Result<Company, seq<FieldError>>)
    ensures r.Success? <==>
              raw.name.Some? && Truthy(Trim(raw.name.value)) &&
              (raw.defaultCategory.None? || raw.defaultCategory.value in DefaultCategories)
    ensures r.Success? ==> WellFormed(r.value)
    ensures r.Success? ==> r.value.name == Trim(raw.name.value)
    ensures r.Success? ==> |r.value.aliases| == |raw.aliases|
    ensures r.Success? ==> forall i :: 0 <= i < |raw.aliases| ==> r.value.aliases[i] == Trim(raw.aliases[i])
    ensures r.Success? && raw.categories.Some? ==> r.value.categories == raw.categories.value
    ensures r.Success? && raw.defaultCategory.Some? ==> r.value.defaultCategory == raw.defaultCategory.value
    ensures r.Success? && raw.isActive.Some? ==> r.value.isActive == raw.isActive.value
    ensures r.Success? && raw.categories.None? ==> r.value.categories == map[]
    ensures r.Success? && raw.defaultCategory.None? ==> r.value.defaultCategory == "Unlisted"
    ensures r.Success? && raw.isActive.None? ==> r.value.isActive
    ensures r.Failure? ==> |r.error| > 0
    ensures r.Failure? && (raw.name.None? || !Truthy(Trim(raw.name.value))) ==> Required("name") in r.error
    ensures r.Failure? && raw.defaultCategory.Some? && raw.defaultCategory.value !in DefaultCategories ==>
              NotInEnum("defaultCategory", 0, raw.defaultCategory.value) in r.error
  {
    var name := if raw.name.Some? then Some(Trim(raw.name.value)) else None;
    var nameErrs := if name.None? || !Truthy(name.value) then [Required("name")] else [];
    var categoryErrs :=
      if raw.defaultCategory.Some? && raw.defaultCategory.value !in DefaultCategories
      then [NotInEnum("defaultCategory", 0, raw.defaultCategory.value)] else [];
    if |nameErrs + categoryErrs| > 0 then Failure(nameErrs + categoryErrs)
    else
      var aliases := TrimAll(raw.aliases);
      TrimIdempotent(raw.name.value);
      assert forall i :: 0 <= i < |aliases| ==> aliases[i] == Trim(aliases[i]) by {
        forall i | 0 <= i < |aliases| ensures aliases[i] == Trim(aliases[i]) {
          TrimIdempotent(raw.aliases[i]);
        }
      }
      Success(Company(
        name.value,
        aliases,
        raw.categories.GetOr(map[]),
        raw.defaultCategory.GetOr(UnlistedCategory),
        raw.isActive.GetOr(true)))
  }

  function Names(cs: seq<Company>): (ns: seq<string>)
    ensures |ns| == |cs| && forall i :: 0 <= i < |cs| ==> ns[i] == cs[i].name
  {
    seq(|cs|, i requires 0 <= i < |cs| => cs[i].name)
  }

  /** Storing a company under the unique `name` index, compared after trimming. */
  function InsertCompany(stored: seq<Company>, raw: RawCompany): (r: Result<seq<Company>, StoreError>)
    ensures r.Success? ==> ValidateCompany(raw).Success? && r.value == stored + [ValidateCompany(raw).value]
    ensures r.Success? <==> ValidateCompany(raw).Success? && ValidateCompany(raw).value.name !in Names(stored)
    ensures DistinctKeys(Names(stored)) && r.Success? ==> DistinctKeys(Names(r.value))
  {
    match ValidateCompany(raw)
    case Failure(errs) => Failure(Invalid(errs))
    case Success(c) =>
      if c.name in Names(stored) then Failure(DuplicateKey(c.name))
      else
        assert Names(stored + [c]) == Names(stored) + [c.name];
        assert DistinctKeys(Names(stored)) ==> DistinctKeys(Names(stored + [c])) by {
          if DistinctKeys(Names(stored)) {
            AppendFreshKey(Names(stored), c.name);
          }
        }
        Success(stored + [c])
  }

  /** A validated company's default category is never empty, so the per-lender category
      resolution never falls through to an empty string. */
  lemma DefaultCategoryNonEmpty(c: Company)
    requires WellFormed(c)
    ensures Truthy(c.defaultCategory)
  {
  }
}
