# Loan eligibility engine — a Dafny model

This project models the decision core of a personal-loan marketplace backend. Lenders
("banks") each keep an underwriting **bank policy**: age, salary, loan-amount and tenure
bounds, employment rules, credit rules and two income-banded tables. One table gives the
share of salary that may go to EMIs (**FOIR**, fixed obligations to income ratio). The
other gives the **multiplier** that turns monthly salary into a loan amount, optionally
per employer category and per tenure. A **company** record maps employers to a category
for each lender.

The model covers these parts:

- **Strict evaluator** (`Eligibility`). It checks one applicant against one policy. Fifteen
  gates run in a fixed order, and each gate that fails adds one reason. The FOIR cap and
  the multiplier cap are always computed. The final maximum amount is the least of the
  non-zero caps and the policy maximum.
- **Quote engine** (`OfferEngine`, `Rules`, `Ranking`). It runs over every stored policy.
  For each one it:
  - applies the salary, age and customer-type gates;
  - resolves the employer's category for that lender;
  - picks the best matching multiplier, with a fallback of 10;
  - emits an offer.

  The offers are then sorted by amount, highest first. The sort is stable.
- **Policy and company documents** (`Policies`, `Companies`). These model schema validation
  with required fields, enums, defaults, trimming and unique keys.
- **Two multiplier generators.**
  - The ICICI table expansion (`IciciPolicy`): 198 rules from three category groups, four
    income bands and five tenures.
  - The seed script's table (`SeedPolicies`): 49 rules for Super A and Cat A.
- **Supporting modules.** `Foir` holds the annuity arithmetic and `Numeric` holds rounding
  and min. `Text` models lower-casing, first-space replacement and trimming.

Representation choices:

- Money, salaries, FOIR percentages and multipliers are `real`. Ages, months and CIBIL
  scores are `int`.
- `Math.round` is `floor(x + 0.5)`.
- JavaScript truthiness is written out where the code relies on it:
  - a score of 0 means "no score";
  - `minCibil` of 0 is ignored, but -1 is enforced;
  - a cap of 0 counts as "no cap" in `Math.min(x || Infinity, …)`;
  - a requested tenure of 0 becomes 60.
- Failure messages are a `Reason` datatype, one constructor per message template.
- An error thrown inside the quote loop is a step result `Abort`. With an `Abort`, the
  whole quote answers `[]`, as the `catch` block does.

Where the documented behaviour and the code disagree, the model follows the code:

- **Applicant without a score.** With no CIBIL score the applicant counts as new to credit.
  A policy that does not set `allowCibil0To1` (default false) rejects them. So a salaried
  30-year-old earning 40000 with no score is not eligible under a policy with no credit
  settings (`Eligibility.ScenarioWithoutScore`). With a score of 750 they are eligible
  (`Eligibility.ScenarioEligible`).
- **Company category gate.** The gate is permissive only when the applicant has no
  category. A non-empty category such as "Unlisted" that the policy's list omits is
  rejected (`Eligibility.CategoryGate`).
- **Existing EMI.** The quote request accepts `existingEmi` but never reads it
  (`OfferEngine.ExistingEmiIgnored`).
- **Tie-breaks.** The quote path does not simply take the greatest multiplier among all
  matching rules. Exact-category rules are preferred when any match, and among equals the
  first rule wins.

## Model

| member | source | states |
|---|---|---|
| Text.ToLower | services/eligibilityService.js:37 | lower-casing keeps the length, maps every ASCII capital to its small letter, keeps every other character, and leaves no capital behind |
| Text.ReplaceFirst | services/eligibilityService.js:37 | replacing keeps the length; the first occurrence of the searched character, and no other position, becomes the replacement; a string without it is returned unchanged |
| Text.ReplaceFirstAt | services/eligibilityService.js:37 | a string pattern replaces only its first occurrence: the result is the input with exactly that position changed |
| Text.NormalizeEmploymentType | services/eligibilityService.js:37 | the normalised employment type has the input's length; its first space becomes "-" and every other character is the lower-cased input character |
| Text.NormalizeSelfEmployed | services/eligibilityService.js:37 | "Self Employed" normalises to the enum value "self-employed" |
| Text.NormalizeReplacesOnlyFirstSpace | services/eligibilityService.js:37 | only the first space becomes a dash: "a b c" normalises to "a-b c" |
| Text.TrimStart | models/Company.js:8 | the result is the longest suffix not starting with whitespace, and everything dropped is whitespace |
| Text.TrimEnd | models/Company.js:8 | the result is the longest prefix not ending with whitespace, and everything dropped is whitespace |
| Text.Trim | models/Company.js:8-9 | a trimmed string is empty or starts and ends with a non-whitespace character, and it is a contiguous slice of the input with only whitespace cut on either side |
| Text.TrimIdempotent | models/Company.js:8-9 | trimming an already trimmed string changes nothing |
| Text.BlankTrimsToEmpty | models/Company.js:8 | an all-whitespace name trims to the empty string, which the required-field rule then refuses |
| Schema.AppendFreshKey | models/BankPolicy.js:4 | appending a key not yet present keeps a list of unique keys unique |
| Policies.MissingErrors | models/BankPolicy.js:4-16 | exactly the required paths that are missing are reported, as Required errors |
| Policies.MissingErrorsConcat | models/BankPolicy.js:4-16 | errors for a list of paths are the errors of its parts in path order, so the report follows the order of the required paths |
| Policies.EnumErrors | models/BankPolicy.js:7 | every customer type outside the enum is reported with its index, and nothing else is |
| Policies.SchemaErrors | models/BankPolicy.js:3-54 | there are no errors exactly when the document is acceptable; each missing required path and each bad customer type is reported, and every Required error is genuine |
| Policies.ValidatePolicy | models/BankPolicy.js:3-54 | a document is stored exactly when it is acceptable; the stored policy is well formed, keeps every given value (the required basic fields, the company categories, notes, product type, job and experience months and every given flag) and takes the schema defaults (productType "PL", job and experience months 0, MCA and new-to-credit and hostel and own-house and self-employed and pensioner false, bachelors true); a refusal lists every missing path and bad enum value |
| Policies.ValidateToRaw | models/BankPolicy.js:3-54 | round trip: a well-formed policy written out in full validates back to itself |
| Policies.ValidateIdempotent | models/BankPolicy.js:3-54 | validating a stored policy again yields the same policy |
| Policies.InsertPolicy | models/BankPolicy.js:4 | an insert succeeds exactly when the document validates and its bankId is not yet stored; it appends the validated policy and keeps bank ids unique |
| Companies.TrimAll | models/Company.js:9 | every alias is trimmed, none lost |
| Companies.ValidateCompany | models/Company.js:6-28 | a company is accepted exactly when its trimmed name is non-empty and its default category, if given, is one of the four enum values; the result is well formed, the name and every alias are the trimmed given values, given categories, defaultCategory and isActive are kept, and absent ones default to empty, "Unlisted" and true; a refusal names the failing field |
| Companies.InsertCompany | models/Company.js:8 | an insert succeeds exactly when the company validates and its trimmed name is new; it appends and keeps names unique |
| Companies.DefaultCategoryNonEmpty | models/Company.js:19-23 | a stored company's default category is never empty, so the "Unlisted" fallback is never reached through it |
| Rules.FindFirst | controllers/eligibilityController.js:84-86 | the index returned is the first element satisfying the predicate; none is returned only when no element does |
| Rules.Filter | services/eligibilityService.js:73-77 | the filtered list holds exactly the input's elements that satisfy the predicate |
| Rules.FilterConcat | services/eligibilityService.js:73-77 | filtering a concatenation is the concatenation of the filtered parts, so the filter keeps the rules' order |
| Rules.FirstFoirRow | controllers/eligibilityController.js:84-86 | a FOIR row is found exactly when some band contains the salary, and it is the first such band |
| Rules.FirstStrictRule | controllers/eligibilityController.js:104-108 | a multiplier rule is found exactly when one's band contains the salary and its category is empty or equal to the applicant's, and it is the first such rule |
| Rules.BestIndex | services/eligibilityService.js:86-88 | the reduce picks a highest multiplier, the earliest among equals |
| Rules.SelectMultiplier | services/eligibilityService.js:71-95 | there is no multiplier exactly when no rule applies; otherwise it is the largest multiplier among the eligible rules, which are the exact-category rules when any apply and all applying rules otherwise |
| Rules.NoCandidateNoMatch | services/eligibilityService.js:79 | an empty candidate list means no rule matched at all |
| Rules.CandidatesAreEligible | services/eligibilityService.js:73-82 | the candidate list holds exactly the eligible rules |
| Rules.BestIsMaximal | services/eligibilityService.js:86-90 | the chosen candidate's multiplier is attained by an eligible rule and bounds every eligible rule's multiplier |
| Rules.SelectionDominates | services/eligibilityService.js:73-90 | whenever an eligible rule exists a multiplier is selected, and it is at least that rule's |
| Rules.SelectionBounded | services/eligibilityService.js:73-90 | a bound on every applying rule's multiplier bounds the selected multiplier |
| Rules.EffectiveMultiplier | services/eligibilityService.js:97-101 | with no matching rule or a selected 0, the multiplier is the fallback 10; otherwise it is the selected rule's multiplier; the result is never 0 |
| Rules.EffectiveMultiplierPositive | services/eligibilityService.js:97-103 | on a table without negative multipliers, every policy reaches the offer step with a positive multiplier |
| Rules.ExactCategoryWins | services/eligibilityService.js:80-82 | a "Super A" rule with multiplier 5 beats an "Any" rule in the same band, whether the "Any" multiplier is lower or higher |
| Numeric.Round | services/eligibilityService.js:110 | the rounded amount lies within half a unit of the exact amount |
| Numeric.RoundBelowWhole | services/eligibilityService.js:104-110 | rounding an amount below a whole-rupee cap never exceeds the cap |
| Numeric.RoundWhole | controllers/eligibilityController.js:132-133 | rounding a whole number returns it |
| Numeric.Min | services/eligibilityService.js:104 | the minimum is one of its arguments and below both |
| Foir.EffectiveTenure | controllers/eligibilityController.js:95 | a requested tenure of 0 becomes the default of 60 months; any other is kept |
| Foir.DiscountBounds | controllers/eligibilityController.js:97 | discounting over n months stays in (0, 1], below 1 for n ≥ 1, and above Bernoulli's lower bound |
| Foir.GrowthAboveOne | controllers/eligibilityController.js:97 | compounding at the monthly rate never shrinks, and grows strictly after a month |
| Foir.AnnuityFactorBounds | controllers/eligibilityController.js:93-97 | for n > 0 months the present-value factor is positive, below n and below 1/r; for n < 0 it is negative |
| Foir.AnnuityFactorIncreasing | controllers/eligibilityController.js:97 | a longer tenure gives a strictly larger factor |
| Foir.MaxAmountByFoir | controllers/eligibilityController.js:83-100 | without a covering FOIR row, or with no EMI room left, the FOIR cap is 0; otherwise, for a positive tenure, it is positive and below both the EMI room times the tenure and the EMI room divided by the monthly rate; for a negative tenure it is negative |
| Eligibility.BureauStatus | controllers/eligibilityController.js:54 | a score counts only when it is present, is neither 0 nor -1, and the applicant is not flagged new to credit |
| Eligibility.MultiplierCapOf | controllers/eligibilityController.js:102-112 | the multiplier cap is salary times the first strictly applying rule's multiplier, and 0 when no rule applies |
| Eligibility.Passes | controllers/eligibilityController.js:8-121 | the requirement of each gate, stated positively; it has no contract of its own and is the reference definition that `Eligibility.Verdict`, `Eligibility.ReportedExactly`, `Eligibility.AllChecksReported` and `Eligibility.Evaluate` are stated against |
| Eligibility.Verdict | controllers/eligibilityController.js:8-121 | each gate adds a reason exactly when the applicant fails its requirement |
| Eligibility.VerdictNamesItsCheck | controllers/eligibilityController.js:8-121 | the reason a gate adds belongs to that gate |
| Eligibility.FailuresRanked | controllers/eligibilityController.js:5-121 | running gates in increasing order yields reasons in that order, each for one of the gates run |
| Eligibility.FailuresReport | controllers/eligibilityController.js:5-121 | a reason for a gate appears exactly when that gate was run and failed |
| Eligibility.CheckOrderRanked | controllers/eligibilityController.js:8-121 | the evaluator's gate order lists each gate once, in strictly increasing rank |
| Eligibility.ReportedExactly | controllers/eligibilityController.js:5-123 | running every gate once in order reports exactly the failed requirements, in order; there are no reasons exactly when the policy is met |
| Eligibility.AllChecksReported | controllers/eligibilityController.js:5-123 | the evaluator's reason list names exactly the failed gates, in gate order, and is empty exactly when the applicant meets the policy |
| Eligibility.FinalMaxAmount | controllers/eligibilityController.js:130 | the final amount is at most the policy maximum and at most each non-zero cap, and equals one of them |
| Eligibility.Evaluate | controllers/eligibilityController.js:4-136 | eligible exactly when no reason is reported and exactly when every requirement holds; reasons name exactly the failed gates in gate order; the final amount is the policy maximum or one of the non-zero caps, and respects the maximum and both non-zero caps; the reported FOIR and multiplier amounts are the caps rounded to the nearest unit; bank id and name are copied |
| Eligibility.BoundsAreInclusive | controllers/eligibilityController.js:13-30 | an age, salary, amount or tenure equal to a bound passes that gate |
| Eligibility.CategoryGate | controllers/eligibilityController.js:41-47 | the category gate fails exactly when the policy lists categories and the applicant's non-empty category is not among them |
| Eligibility.CreditDecision | controllers/eligibilityController.js:54-62 | without bureau history only allowCibil0To1 decides; with a score the gate fails exactly when minCibil is set, non-zero and above the score |
| Eligibility.CreditReasonMatchesBranch | controllers/eligibilityController.js:54-62 | the new-to-credit reason comes only from the no-history branch and the below-minimum reason only from the scored branch |
| Eligibility.NegativeMinCibilIsEnforced | controllers/eligibilityController.js:59 | a minCibil of -1 is truthy and is enforced against a lower score |
| Eligibility.ZeroCapsAreUnbounded | controllers/eligibilityController.js:130 | a zero cap counts as no cap: with both caps 0 the final amount is the policy maximum |
| Eligibility.FoirCapPositive | controllers/eligibilityController.js:88-98 | for a positive tenure the FOIR cap is positive exactly when a FOIR row covers the salary and leaves EMI room |
| Eligibility.ScenarioEligible | controllers/eligibilityController.js:4-136 | a salaried 30-year-old earning 40000 with score 750, asking 200000 over 36 months, is eligible under an Axis-like policy, capped at the 4000000 maximum |
| Eligibility.ScenarioWithoutScore | controllers/eligibilityController.js:54-57 | the same applicant without a score fails only the credit gate |
| Eligibility.ScenarioTooOld | controllers/eligibilityController.js:13-15 | the same applicant aged 65 is refused with an age reason |
| Ranking.Insert | services/eligibilityService.js:121 | inserting one offer adds exactly one element, placed at the front or behind the first offer |
| Ranking.InsertSorted | services/eligibilityService.js:121 | inserting into offers sorted by amount keeps them sorted |
| Ranking.InsertPermutes | services/eligibilityService.js:121 | inserting adds exactly the new offer and nothing else |
| Ranking.SortByAmount | services/eligibilityService.js:121 | the ranked offers are a permutation of the collected ones with non-increasing amounts |
| Ranking.InsertStable | services/eligibilityService.js:121 | an inserted offer goes ahead of every offer with the same amount |
| Ranking.SortStable | services/eligibilityService.js:121 | the sort is stable: offers with equal amounts keep their relative order |
| Ranking.SortKeepsSorted | services/eligibilityService.js:121 | offers already in order are left unchanged |
| Ranking.SortIdempotent | services/eligibilityService.js:121 | sorting twice is sorting once |
| OfferEngine.ResolveCategory | services/eligibilityService.js:40-60 | the category is never empty; it is "Unlisted" without a company; it is the lender mapping when that is non-empty; otherwise it is the company default when that is non-empty, else "Unlisted" |
| OfferEngine.CategoryOfWellFormedCompany | services/eligibilityService.js:54-59 | for a stored company the category is the lender mapping, or else the default, which is one of the four enum values |
| OfferEngine.OfferMultiplier | services/eligibilityService.js:65-101 | the multiplier used is the selected rule's when that is non-zero, and the fallback 10 when no rule of the policy matches or the selected one is 0 |
| OfferEngine.MakeOffer | services/eligibilityService.js:103-117 | the offer copies the bank id and name and the tenure range; its amount is the rounded minimum of salary times multiplier and the policy maximum; the rate is 11 and the fee 1; probability is High exactly for Super A and Cat A; tags are empty exactly for "Unlisted"; recommended exactly when the multiplier is at least 20 |
| OfferEngine.PolicyStep | services/eligibilityService.js:33-118 | the loop throws exactly when a policy passes the salary and age gates, lists customer types, and no employment type was given; an emitted offer passed the gates and is the offer built from the resolved category and the policy's multiplier for the salary |
| OfferEngine.StepEmitsExactlyWhenQualified | services/eligibilityService.js:33-118 | a policy yields an offer exactly when it passes every gate and its multiplier is positive |
| OfferEngine.GatesDecideForNonNegativeTables | services/eligibilityService.js:97-103 | with no negative multipliers, the salary, age and customer-type gates alone decide whether a policy yields an offer |
| OfferEngine.Gather | services/eligibilityService.js:31-126 | the loop gives up exactly when some policy throws, and otherwise yields at most one offer per policy |
| OfferEngine.GatherCons | services/eligibilityService.js:33-119 | one more policy in front throws, is skipped, or puts its offer in front |
| OfferEngine.GatherCount | services/eligibilityService.js:33-119 | without a throw there is exactly one offer per emitting policy |
| OfferEngine.GatherEmitted | services/eligibilityService.js:33-119 | every collected offer was emitted by some policy |
| OfferEngine.GatherOrder | services/eligibilityService.js:33-119 | collected offers keep the order of the policies that emitted them |
| OfferEngine.Steps | services/eligibilityService.js:33 | every stored policy is visited once, in order |
| OfferEngine.CollectOffers | services/eligibilityService.js:31-126 | the collection fails exactly when some policy throws, and otherwise holds at most one offer per policy |
| OfferEngine.EmitCountIsQualifyingCount | services/eligibilityService.js:33-119 | the number of emitting policies is the number of qualifying policies |
| OfferEngine.CalculateOffers | services/eligibilityService.js:5-127 | the result is sorted by amount, highest first; it is empty when any policy throws; otherwise it is a permutation of the collected offers |
| OfferEngine.OffersComeFromQualifyingPolicies | services/eligibilityService.js:33-121 | every offer returned was produced by a policy that qualifies |
| OfferEngine.OfferCount | services/eligibilityService.js:33-121 | when nothing throws, there is exactly one offer per qualifying policy |
| OfferEngine.DbPrefilter | services/eligibilityService.js:23-28 | the database query keeps only policies whose minimum salary or minimum age is within the applicant's |
| OfferEngine.PrefilterIrrelevant | services/eligibilityService.js:23-37 | the database pre-filter changes no result: every policy it drops fails the loop's own salary or age gate |
| OfferEngine.ExistingEmiIgnored | services/eligibilityService.js:7 | the offers do not depend on the existing EMI |
| OfferEngine.CollectedIdsDistinct | services/eligibilityService.js:106-107 | with unique bank ids, the collected offers have unique ids |
| OfferEngine.InsertKeepsIdsDistinct | services/eligibilityService.js:121 | inserting an offer with a fresh id keeps ids unique |
| OfferEngine.SortKeepsIdsDistinct | services/eligibilityService.js:121 | sorting keeps ids unique |
| OfferEngine.OfferIdsDistinct | services/eligibilityService.js:5-127 | with unique bank ids, no lender appears twice among the returned offers |
| IciciPolicy.TenureRules | policies/icici_pl.js:69-79 | one rule per available cell from the given position on |
| IciciPolicy.TenureRulesSound | policies/icici_pl.js:69-79 | every rule for a category carries that category, the band, and the multiplier of an available cell at that cell's tenure |
| IciciPolicy.TenureRulesComplete | policies/icici_pl.js:69-79 | every available cell yields its rule |
| IciciPolicy.TenureRulesAscending | policies/icici_pl.js:66-79 | the rules of one category come in strictly ascending tenure |
| IciciPolicy.CategoryRules | policies/icici_pl.js:68-80 | one call adds one rule per category per available cell |
| IciciPolicy.CategoryRulesSound | policies/icici_pl.js:68-80 | every rule one call adds comes from an available cell for one of the listed categories |
| IciciPolicy.CategoryRulesComplete | policies/icici_pl.js:68-80 | every listed category gets a rule for every available cell |
| IciciPolicy.CategoryRulesOrdered | policies/icici_pl.js:68-80 | one call's rules come category by category in list order, ascending tenure within each |
| IciciPolicy.AddMultiplier | policies/icici_pl.js:63-81 | the helper only appends, one rule per category per available cell |
| IciciPolicy.AddMultiplierSound | policies/icici_pl.js:63-81 | every appended rule comes from an available cell for a listed category |
| IciciPolicy.AddMultiplierComplete | policies/icici_pl.js:63-81 | every listed category gets a rule for every available cell |
| IciciPolicy.AddMultiplierOrdered | policies/icici_pl.js:63-81 | the appended rules are grouped by category in list order, ascending tenure within each |
| IciciPolicy.BandsDisjoint | policies/icici_pl.js:85-88 | the four income bands are ordered, non-empty and disjoint, each starting one above the previous |
| IciciPolicy.Expand | policies/icici_pl.js:85-88 | the calls for one group only append to the rules built so far |
| IciciPolicy.ExpandLength | policies/icici_pl.js:85-88 | one group adds one rule per category per available cell of its grid |
| IciciPolicy.ExpandSound | policies/icici_pl.js:85-88 | every rule a group adds comes from one of its bands and that band's grid row |
| IciciPolicy.ExpandKeeps | policies/icici_pl.js:83-102 | rules added by earlier groups are kept |
| IciciPolicy.GridCounts | policies/icici_pl.js:85-102 | the three grids hold 20, 20 and 19 available cells |
| IciciPolicy.IciciMultiplierRules | policies/icici_pl.js:83-102 | the rules the three groups of `addMultiplier` calls leave in `credit.multiplierRules`; it has no contract of its own, and its properties are stated by `IciciPolicy.IciciRuleCount` and `IciciPolicy.IciciRulesFromGrids` |
| IciciPolicy.IciciRuleCount | policies/icici_pl.js:83-102 | the ICICI policy has 198 multiplier rules |
| IciciPolicy.IciciRulesFromGrids | policies/icici_pl.js:83-102 | every ICICI rule comes from one of the three group grids |
| IciciPolicy.NoLongTenureRule | policies/icici_pl.js:99 | an Open Market or Unlisted rule in the lowest band never has the 60-month tenure |
| IciciPolicy.NoLongTenureForOpenMarketLowBand | policies/icici_pl.js:99 | the "NA" cell leaves no 60-month rule for Open Market or Unlisted in the lowest band |
| IciciPolicy.RuleCategoryFacts | policies/icici_pl.js:83-102 | every ICICI rule names a non-empty category from one of the groups (never "Any") and a tenure |
| IciciPolicy.NoRuleForUngrouped | policies/icici_pl.js:84-98 | a category outside the three groups, such as Unknown, Listed or Blacklisted, matches no ICICI rule |
| IciciPolicy.UngroupedCategoryFallsBack | policies/icici_pl.js:83-102 | for such a category the quote engine falls back to the multiplier 10 |
| IciciPolicy.SuperALowBandBound | policies/icici_pl.js:85 | no Super A rule covering a salary up to 35000 exceeds 19 |
| IciciPolicy.SuperALongTenurePresent | policies/icici_pl.js:85 | the 60-month Super A rule with multiplier 19 for the lowest band is present |
| IciciPolicy.SuperALowBandSelect | services/eligibilityService.js:73-90 | over any ICICI-derived table containing that rule, Super A at salary 30000 selects 19 |
| IciciPolicy.SuperALowBandApplies | policies/icici_pl.js:85 | every ICICI rule applying to Super A at 30000 has a multiplier of at most 19 |
| IciciPolicy.SuperALowBandQuote | policies/icici_pl.js:83-102 | the ICICI table quotes Super A at salary 30000 with multiplier 19, the best tenure's |
| SeedPolicies.RowRulesSound | scripts/seedPolicies.js:31-55 | every rule of a row comes from one of its entries: that range, that tenure, Super A or Cat A with the entry's positive multiplier |
| SeedPolicies.TableRulesSoundAfter | scripts/seedPolicies.js:30-56 | every rule from the later rows comes from an entry of one of those rows |
| SeedPolicies.TableRulesSound | scripts/seedPolicies.js:30-56 | every generated rule comes from some table entry |
| SeedPolicies.EntryShape | scripts/seedPolicies.js:30-56 | a rule from an entry has a positive multiplier, category Super A or Cat A, a listed tenure and one of the five ranges |
| SeedPolicies.TableRulesShape | scripts/seedPolicies.js:30-56 | every rule of a well-keyed table has that shape |
| SeedPolicies.GenerateMultipliers | scripts/seedPolicies.js:9-59 | the rules `generateMultipliers` returns; it has no contract of its own, and its properties are stated by `SeedPolicies.GeneratedRulesShape`, `SeedPolicies.GeneratedRuleCount` and `SeedPolicies.GeneratedRulesOrdered` |
| SeedPolicies.GeneratedRulesShape | scripts/seedPolicies.js:9-59 | every generated rule has that shape |
| SeedPolicies.SeedTableShape | scripts/seedPolicies.js:20-58 | the seed table fits the ranges and every rule it yields has that shape |
| SeedPolicies.RowRulesComplete | scripts/seedPolicies.js:31-55 | every positive multiplier in a row yields its rule |
| SeedPolicies.TableRulesComplete | scripts/seedPolicies.js:30-56 | every positive multiplier in the table yields its rule |
| SeedPolicies.TableRulesCount | scripts/seedPolicies.js:30-56 | the number of rules is the number of positive multipliers |
| SeedPolicies.RowRulesCount | scripts/seedPolicies.js:31-55 | a row yields one rule per positive multiplier |
| SeedPolicies.FullRowCount | scripts/seedPolicies.js:31-55 | a row of five all-positive pairs yields ten rules |
| SeedPolicies.PositiveEntries | scripts/seedPolicies.js:20-26 | the seed table holds 49 positive multipliers |
| SeedPolicies.GeneratedRuleCount | scripts/seedPolicies.js:9-59 | the generator returns 49 rules |
| SeedPolicies.SeedTableCount | scripts/seedPolicies.js:20-58 | the seed table expands to 49 rules |
| SeedPolicies.EntryNotLowLongCatA | scripts/seedPolicies.js:46 | where the lowest-range 60-month Cat A figure is 0, no entry yields that rule |
| SeedPolicies.TableRulesNoLowLongCatA | scripts/seedPolicies.js:46-54 | such a table yields no Cat A rule for 60 months in the lowest range |
| SeedPolicies.NoCatALongTenureLowRange | scripts/seedPolicies.js:25 | the 0 standing for "NA" yields no Cat A rule there, while Super A keeps its 15 |
| SeedPolicies.LowLongSuperA | scripts/seedPolicies.js:35-43 | a 15 in the lowest range of the 60-month row yields the Super A rule |
| SeedPolicies.SeedTableFacts | scripts/seedPolicies.js:20-26 | the seed table has five rows keyed by ascending listed tenures, fits the ranges, and its 60-month row starts with (15, 0) |
| SeedPolicies.RangesAscend | scripts/seedPolicies.js:11-17 | the ranges' lower bounds strictly ascend |
| SeedPolicies.RowRulesOrdered | scripts/seedPolicies.js:31-55 | a row's rules come in ascending range, Super A before Cat A within a range |
| SeedPolicies.TableRulesOrdered | scripts/seedPolicies.js:30-56 | with ascending tenure keys, the rules come by tenure, then range, then Super A before Cat A |
| SeedPolicies.GeneratedRulesOrdered | scripts/seedPolicies.js:9-59 | the generated rules come in that order |
| SeedPolicies.SeedTableOrdered | scripts/seedPolicies.js:20-58 | the seed table's rules come in that order |
| SeedPolicies.RangesPartition | scripts/seedPolicies.js:11-17 | the five ranges start at 0, are non-empty and disjoint, and each starts one above the previous |

## Left out

- The database. `BankPolicy.find` is modelled as the list of stored policies
  (`OfferEngine.DbPrefilter` models its filter). `Company.findOne` with a case-insensitive
  regular expression over names and aliases is not modelled. Its result is an input
  `Option<Company>`, because regular-expression matching is outside the model.
- Logging (`console.log`, `console.error`) and timestamps: these have no effect on results.
- Floating point. Amounts are exact reals and `Math.pow` is exact. Rounding differences of
  IEEE doubles are not modelled.
- The text of failure messages. Each message template is a `Reason` constructor with its
  numbers, and string formatting is not modelled.
- Mongoose's Map versus plain-object branch for `categories` (eligibilityService.js
  lines 45-52). Both read the same lender key, so one `map` stands for both.
- `policy.logoUrl` is not a schema path, so the offer always carries the generated avatar
  URL.
- The HTTP handlers in the controller (`checkEligibility` and below) and the other
  controllers and routes. They are request plumbing around the modelled functions.
- The database writes of the seed script. Only `generateMultipliers` is modelled.
- In the ICICI file, the module-level `push` into `module.exports` is modelled as pure
  appending. The policy's other fields are data, not logic.
- JavaScript values of the wrong type (`undefined` numbers, `NaN`, strings where numbers
  are expected). Numeric fields are numbers. An absent string or score is `None`, and an
  absent boolean is false.
- The model does not treat a salary above 9,999,999 as an error. The ICICI bands stop at
  9,999,999 while the seed ranges run to 99,999,999, so such a salary matches no ICICI
  rule and gets the fallback multiplier 10.
- Text.ToLower: only ASCII letters are lower-cased. The Unicode case mapping of
  `toLowerCase` is not modelled, because employment types are ASCII.
- Policies.ValidatePolicy: Mongoose's casting of strings to numbers and booleans is not
  modelled, because raw fields are already typed. The unique index becomes the insert
  check in `Policies.InsertPolicy`, and concurrent inserts are not modelled.
- Foir.MaxAmountByFoir: the contract bounds the FOIR cap rather than stating its decimal
  value. A negative requested tenure gives a negative cap. The amount check ignores it,
  but `finalMaxAmount` becomes that negative cap, since a negative number is truthy.
- OfferEngine.CalculateOffers: the contract states the sort and the permutation. Stability
  is stated separately by `Ranking.SortStable`.
