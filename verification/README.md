# Claims-based policy authorization of Identity.UnderTheHood

This project models the authorization core of the Identity.UnderTheHood demo
web application in Dafny. A signed-in principal carries a list of typed claims.
Pages are guarded by named policies. A policy is a conjunction of requirements:
a claim of some type is present, a claim has a given value, or the HR-manager
probation period has elapsed. The probation handler reads the first claim
typed exactly `EmploymentDate` and parses it as a date. It succeeds when the
whole days since that date exceed `30 * ProbationMonth`. It abstains when the
claim is missing. When the date does not parse, the parse exception escapes.

Modules:

- `Wrappers` (`wrappers.dfy`): `Option`.
- `Claims` (`claims.dfy`): claims in issue order, and the "has a claim of this
  type" and "first claim of this type" lookups the handler makes.
- `Time` (`time.dfy`): a DateTime as its tick count (0 to `DateTime.MaxValue.Ticks`).
  It also holds `TimeSpan.Days`, whose truncation toward zero is written out
  because Dafny's `/` is Euclidean, and the wrap-around of a C# `int` product.
- `Probation` (`probation.dfy`): the requirement, and the handler as a function
  returning `Succeeded`, `Abstained` or `ParseError(value)`. It has two
  versions: the code as written and the corrected one (see Findings).
- `Policies` (`policies.dfy`): the requirement variant, all-of evaluation, the
  table of the three registered policies and `Authorize`. An unknown policy
  name gives `Failed(PolicyNotFound)`, which stands for the
  InvalidOperationException ASP.NET Core throws when it cannot resolve the
  policy named in an `[Authorize(Policy = …)]` attribute (both names the pages
  use are registered). An unparsable date gives
  `Failed(MalformedClaim)`.
- `Registration` (`registration.dfy`): the start-up registration, replayed step
  by step. Policy builders append requirements, and the options object stores
  each built policy under its name. The result is proved equal to the table.
- `Scenarios` (`scenarios.dfy`): the principal issued by the demo login page,
  and an HR manager at several employment ages.

Inputs that are not part of the model are parameters. The current time `now`
is a DateTime (`DateTime.Now` is not sampled). `DateTime.Parse` is a function
`string -> Option<DateTime>`, where `None` stands for the input on which it throws.

Three facts about the code shape the model:

- `ProbationMonth` is any 32-bit `int`. Nothing checks that it is positive.
- Elapsed time is `DateTime.Now - empDate`, which includes the time of day.
  It is not a date-only difference.
- A parse failure is an exception that escapes evaluation. The model reports it
  as the verdict `Failed(MalformedClaim(value))`.

## Model

| member | source | states |
|---|---|---|
| Claims.PresenceIgnoresClaimOrder | Identity.UnderTheHood/Authorization/HRManagerProbationRequirement.cs:26 | Reordering the claims (same multiset) changes neither whether a claim of a type is present (HasClaim) nor whether an exact (type, value) claim is present (HasClaimValue); only the first-claim lookup depends on order |
| Claims.HasClaimValue | Identity.UnderTheHood/Program.cs:25 | Holds iff some position holds a claim with exactly the given type and value; it implies HasClaim for that type |
| Claims.FirstIndexOfType | Identity.UnderTheHood/Authorization/HRManagerProbationRequirement.cs:30 | There is no result exactly when no claim has the type; otherwise the result is the first position holding that type |
| Claims.FindFirst | Identity.UnderTheHood/Authorization/HRManagerProbationRequirement.cs:30 | Returns nothing iff no claim has the type; otherwise the claim at the first position of that type |
| Claims.FirstIndexIsFound | Identity.UnderTheHood/Authorization/HRManagerProbationRequirement.cs:30 | The first position of a type is the one found, and FindFirst returns the claim there |
| Claims.FindFirstIgnoresLaterClaims | Identity.UnderTheHood/Authorization/HRManagerProbationRequirement.cs:30 | Once a claim of the type is present, appending claims cannot change what FindFirst returns |
| Time.Wrap32 | Identity.UnderTheHood/Authorization/HRManagerProbationRequirement.cs:35 | The C# int result agrees with the mathematical value modulo 2^32 and equals it when that value fits in an int |
| Time.TimeSpanDays | Identity.UnderTheHood/Authorization/HRManagerProbationRequirement.cs:35 | `period.Days` is the whole-day count truncated toward zero: bounded by the span from below/above according to its sign |
| Time.ElapsedDays | Identity.UnderTheHood/Authorization/HRManagerProbationRequirement.cs:32 | Whole days between two DateTimes fit in an int (at most 3652058 either way), are non-negative when the later date is not earlier and non-positive otherwise |
| Time.TruncatesTowardZero | Identity.UnderTheHood/Authorization/HRManagerProbationRequirement.cs:35 | One tick into the past is 0 days (Euclidean division would give -1); a day and a tick into the past is -1 day (not -2) |
| Time.TimeSpanDaysMonotone | Identity.UnderTheHood/Authorization/HRManagerProbationRequirement.cs:32-35 | A longer span never has fewer whole days |
| Time.MoreThanDaysIffTicks | Identity.UnderTheHood/Authorization/HRManagerProbationRequirement.cs:35 | For k >= 0, more than k whole days iff at least (k + 1) days of ticks |
| Probation.ConstructorKeepsProbationMonth | Identity.UnderTheHood/Authorization/HRManagerProbationRequirement.cs:10-13 | The requirement stores its month count unchanged |
| Probation.HandleRequirementAsWritten | Identity.UnderTheHood/Authorization/HRManagerProbationRequirement.cs:23-42 | The handler with the wrapping int threshold: abstains without an EmploymentDate claim; a parse error names the first such claim's value, which does not parse |
| Probation.HandleRequirement | Identity.UnderTheHood/Authorization/HRManagerProbationRequirement.cs:23-42 | The corrected handler: abstains without an EmploymentDate claim; a parse error names the first such claim's value, which does not parse |
| Probation.AbstainsWithoutEmploymentDate | Identity.UnderTheHood/Authorization/HRManagerProbationRequirement.cs:26-27 | With no claim typed exactly "EmploymentDate" (e.g. the misspelt "EmplaymentDate") the handler abstains: no success, no error |
| Probation.SucceedsIffProbationElapsed | Identity.UnderTheHood/Authorization/HRManagerProbationRequirement.cs:30-38 | When the first EmploymentDate claim parses, the handler succeeds iff elapsed whole days > 30 * ProbationMonth and abstains otherwise |
| Probation.UnparsableFirstClaimIsError | Identity.UnderTheHood/Authorization/HRManagerProbationRequirement.cs:30 | An unparsable first EmploymentDate claim yields a parse error carrying its value, not an abstention |
| Probation.SucceedsIffEnoughTicks | Identity.UnderTheHood/Authorization/HRManagerProbationRequirement.cs:32-35 | For ProbationMonth >= 0, success iff at least 30 * ProbationMonth + 1 full days of ticks have passed since the employment date |
| Probation.ThreeMonthBoundary | Identity.UnderTheHood/Authorization/HRManagerProbationRequirement.cs:35 | For 3 months: exactly 90 days abstains, one tick short of 91 days abstains, 91 days succeeds |
| Probation.FutureEmploymentNeverSucceeds | Identity.UnderTheHood/Authorization/HRManagerProbationRequirement.cs:32-35 | For ProbationMonth >= 0 a future employment date abstains: neither success nor error |
| Probation.SuccessIsMonotoneInTime | Identity.UnderTheHood/Authorization/HRManagerProbationRequirement.cs:32-35 | Success at `now` implies success at any later time |
| Probation.LaterClaimsIgnored | Identity.UnderTheHood/Authorization/HRManagerProbationRequirement.cs:30 | Claims after the first EmploymentDate claim do not change the outcome |
| Probation.AsWrittenAgreesWithoutOverflow | Identity.UnderTheHood/Authorization/HRManagerProbationRequirement.cs:35 | For abs(ProbationMonth) <= 71582788 (so for the registered 3) the code as written and the corrected handler give the same outcome |
| Probation.OverflowGrantsFutureEmployee | Identity.UnderTheHood/Authorization/HRManagerProbationRequirement.cs:35 | With ProbationMonth = 71582789 the threshold wraps to -2147483626: as written, a future employment date succeeds; corrected, it abstains |
| Policies.EvaluateRequirement | Identity.UnderTheHood/Program.cs:28-35 | Presence succeeds iff some claim has the type; equality iff the exact (type, value) claim is present; neither errs; a parse error only from the probation handler, naming the first EmploymentDate value |
| Policies.EvaluatePolicy | Identity.UnderTheHood/Program.cs:28-31 | Authorized iff every requirement succeeds (so an empty list authorizes); Failed iff some requirement hits a parse error, with the first EmploymentDate value; Forbidden otherwise |
| Policies.EvaluationIgnoresOrder | Identity.UnderTheHood/Program.cs:28-31 | Permuting a policy's requirements does not change the verdict |
| Policies.Registry | Identity.UnderTheHood/Program.cs:17-32 | The table registers exactly AdminOnly, MustBelongToHRDepartment and HRManagerOnly, each with a non-empty requirement list |
| Policies.RegisteredProbationMatchesCodeAsWritten | Identity.UnderTheHood/Program.cs:31-35 | Every probation requirement in the registered policies evaluates exactly as the handler as written (with its wrapping threshold) does |
| Policies.Authorize | Identity.UnderTheHood/Program.cs:17-32 | PolicyNotFound exactly when the name is not registered; otherwise the verdict of the registered policy |
| Policies.RegisteredNames | Identity.UnderTheHood/Program.cs:17-32 | Only AdminOnly, MustBelongToHRDepartment and HRManagerOnly resolve; any other name is PolicyNotFound |
| Policies.AdminOnlyIffAdminClaim | Identity.UnderTheHood/Program.cs:20-21 | AdminOnly authorizes iff some claim is typed "Admin", whatever its value, and otherwise forbids |
| Policies.MustBelongToHRDepartmentIffHRClaim | Identity.UnderTheHood/Program.cs:24-25 | MustBelongToHRDepartment authorizes iff the claim ("Department", "HR") is present, and otherwise forbids |
| Policies.HRManagerOnlyIff | Identity.UnderTheHood/Program.cs:28-31 | With a parsable first EmploymentDate claim: authorized iff Department is "HR", a Manager claim is present and more than 90 whole days have passed; otherwise forbidden |
| Policies.HRManagerOnlyMalformedDate | Identity.UnderTheHood/Program.cs:31 | An unparsable first EmploymentDate claim makes HRManagerOnly fail with MalformedClaim of that value |
| Policies.HRManagerOnlyNeedsManagerAndEmploymentDate | Identity.UnderTheHood/Program.cs:30-31 | Without a Manager claim or without an EmploymentDate claim HRManagerOnly never authorizes |
| Policies.HRManagerOnlyImpliesHRDepartment | Identity.UnderTheHood/Program.cs:24-31 | Whoever HRManagerOnly authorizes, MustBelongToHRDepartment authorizes |
| Registration.AuthorizationPolicyBuilder.constructor | Identity.UnderTheHood/Program.cs:20 | A new builder holds no requirements |
| Registration.AuthorizationPolicyBuilder.RequireClaim | Identity.UnderTheHood/Program.cs:21 | Appends a claim-present requirement and nothing else |
| Registration.AuthorizationPolicyBuilder.RequireClaimValue | Identity.UnderTheHood/Program.cs:25 | Appends a claim-equals requirement and nothing else |
| Registration.AuthorizationPolicyBuilder.AddRequirement | Identity.UnderTheHood/Program.cs:31 | Appends the given requirement and nothing else |
| Registration.AuthorizationOptions.constructor | Identity.UnderTheHood/Program.cs:17 | The policy map starts empty |
| Registration.AuthorizationOptions.AddPolicy | Identity.UnderTheHood/Program.cs:20-28 | Stores a non-empty policy under its name, replacing an earlier one, leaving every other name as it was; an empty policy is refused and nothing changes |
| Registration.ConfigureAuthorization | Identity.UnderTheHood/Program.cs:17-32 | Running the registration produces exactly the three-policy table |
| Scenarios.DemoPrincipalMisspellings | Identity.UnderTheHood/Pages/Account/Login.cshtml.cs:35-42 | The demo principal has no claim typed "EmploymentDate", no ("Department", "HR") claim, and does have ("Admin", "True") |
| Scenarios.DemoPrincipalVerdicts | Identity.UnderTheHood/Pages/Account/Login.cshtml.cs:35-42 | The demo principal: probation handler abstains; AdminOnly authorizes; MustBelongToHRDepartment and HRManagerOnly forbid, at any time and with any parser |
| Scenarios.HRManagerVerdicts | Identity.UnderTheHood/Program.cs:24-31 | HR manager employed 130 days ago: HRManagerOnly authorizes; 60 days ago: forbidden; department "Sales": MustBelongToHRDepartment forbids |

## Findings

| source | as written | input that shows it | evidently intended | confidence | as-written member | corrected member |
|---|---|---|---|---|---|---|
| Identity.UnderTheHood/Authorization/HRManagerProbationRequirement.cs:35 | `30 * requirement.ProbationMonth` is an unchecked 32-bit int product, which wraps when abs(ProbationMonth) > 71582788 | ProbationMonth = 71582789: the threshold becomes -2147483626, so an employment date in the future passes | the threshold is 30 days per month, with no wrap-around | medium; not executed; no registered policy uses such a value (the only one uses 3) | Probation.OverflowGrantsFutureEmployee | Probation.HandleRequirement |

The policies use the corrected `Probation.HandleRequirement`.
`Probation.AsWrittenAgreesWithoutOverflow` shows that it agrees with the code
as written for every month count whose threshold fits in an int.
`Policies.RegisteredProbationMatchesCodeAsWritten` shows that every probation
requirement in the registered table (they all use 3) evaluates exactly as the
code as written does.

## Left out

- Cookie authentication, the HTTPS/HSTS pipeline, static files, routing and Razor page mapping (Program.cs lines 7-14 and 40-61): framework plumbing with no decision logic.
- The login page's form binding, credential check and sign-in. Its claim list is used only as the `Scenarios.LoginClaims` fixture.
- The pages that attach a policy name by attribute (HumanResource.cshtml.cs, Settings.cshtml.cs). They have no logic. Redirects to the login and access-denied paths are not modelled.
- `DateTime.Parse` culture rules and `DateTime.Now`: both are parameters. Any parser is allowed, and `None` marks the inputs on which it throws.
- The async `Task` wrapper, and `context.Succeed`, which is modelled as the handler's returned outcome.
- Policies.EvaluateRequirement: compares the claim types of the presence and equality requirements exactly, whereas ASP.NET Core compares them case-insensitively, so a differently-cased claim type counts as absent here and as present there. Value comparison and the probation handler's own type test are exact in both.
- Policies.EvaluateRequirement: dispatches a probation requirement to the corrected handler, which computes `30 * ProbationMonth` without wrap-around. For a policy with abs(ProbationMonth) > 71582788 (none is registered) it therefore differs from the program, which wraps the product; for the registered policies the two agree (`Policies.RegisteredProbationMatchesCodeAsWritten`).
- Policies.Authorize: looks policy names up exactly, whereas ASP.NET Core's policy map ignores case, so a name such as "adminonly" is PolicyNotFound here but resolves to AdminOnly in the program; the same holds for `Policies.RegisteredNames`.
- Registration.AuthorizationOptions.AddPolicy: a policy without requirements makes the framework throw an InvalidOperationException while building it; the model reports this as `ok == false` with the policy map unchanged, not as an exception that aborts start-up.
- `RequireClaim(type, values...)` with several allowed values: the application passes one value at most.
- More than one handler per requirement kind: the application registers exactly one handler per kind (Program.cs line 35). `Policies.EvaluateRequirement` dispatches to that handler.
- Multiple identities per principal: claims are one list in issue order, which is the order FindFirst searches.
- Claims are not a multiset. Their order matters because only the first EmploymentDate claim is consulted.
