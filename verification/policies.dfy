/**
 * Policies as conjunctions of requirements, and the process-wide table of
 * named policies the application registers at start-up. A policy authorizes
 * a principal when every one of its requirements was met by a handler; an
 * exception escaping a handler aborts the whole evaluation.
 */
module Policies {
  import opened Wrappers
  import opened Claims
  import opened Time
  import opened Probation

  /** The requirement kinds the registered policies use. */
  datatype Requirement =
    | ClaimPresent(claimType: string)                // RequireClaim(type): any value
    | ClaimEquals(claimType: string, value: string)  // RequireClaim(type, value)
    | ProbationElapsed(probation: HRManagerProbationRequirement)

  /** A policy is its ordered list of requirements. */
  type Policy = seq<Requirement>

  datatype AuthorizationError =
    | PolicyNotFound(name: string)     // no policy registered under that name
    | MalformedClaim(value: string)    // an EmploymentDate value that does not parse

  datatype Verdict = Authorized | Forbidden | Failed(error: AuthorizationError)

  /** The outcome of the one handler registered for the requirement's kind. */
  function EvaluateRequirement(claims: seq<Claim>, requirement: Requirement,
                               now: DateTime, parse: DateParser): (r: Outcome)
    ensures requirement.ClaimPresent? ==>
              r == (if HasClaim(claims, requirement.claimType) then Succeeded else Abstained)
    ensures requirement.ClaimEquals? ==>
              r == (if HasClaimValue(claims, requirement.claimType, requirement.value) then Succeeded else Abstained)
    ensures r.ParseError? ==> requirement.ProbationElapsed?
    ensures r.ParseError? ==> FindFirst(claims, EmploymentDateClaimType) == Some(Claim(EmploymentDateClaimType, r.value))
  {
    match requirement
    case ClaimPresent(claimType) =>
      if HasClaim(claims, claimType) then Succeeded else Abstained
    case ClaimEquals(claimType, value) =>
      if HasClaimValue(claims, claimType, value) then Succeeded else Abstained
    case ProbationElapsed(probation) =>
      HandleRequirement(claims, probation, now, parse)
  }

  /**
   * All-of evaluation: Authorized when every requirement succeeded, Failed when
   * some handler could not parse the employment date, Forbidden otherwise.
   */
  function EvaluatePolicy(claims: seq<Claim>, policy: Policy, now: DateTime, parse: DateParser): (v: Verdict)
    ensures v == Authorized <==> forall r :: r in policy ==> EvaluateRequirement(claims, r, now, parse) == Succeeded
    ensures v.Failed? <==> exists r :: r in policy && EvaluateRequirement(claims, r, now, parse).ParseError?
    ensures v.Failed? ==> v.error.MalformedClaim?
                          && FindFirst(claims, EmploymentDateClaimType) == Some(Claim(EmploymentDateClaimType, v.error.value))
    ensures policy == [] ==> v == Authorized
  {
    if policy == [] then Authorized
    else
      var rest := EvaluatePolicy(claims, policy[1..], now, parse);
      assert forall r :: r in policy <==> r == policy[0] || r in policy[1..];
      match EvaluateRequirement(claims, policy[0], now, parse)
      case ParseError(value) => Failed(MalformedClaim(value))
      case Succeeded => rest
      case Abstained => if rest.Failed? then rest else Forbidden
  }

  /** The verdict does not depend on the order of the requirements. */
  lemma EvaluationIgnoresOrder(claims: seq<Claim>, policy: Policy, permuted: Policy,
                               now: DateTime, parse: DateParser)
    requires multiset(policy) == multiset(permuted)
    ensures EvaluatePolicy(claims, policy, now, parse) == EvaluatePolicy(claims, permuted, now, parse)
  {
    forall r ensures r in policy <==> r in permuted {
      assert r in policy <==> r in multiset(policy);
      assert r in permuted <==> r in multiset(permuted);
    }
  }

  const AdminOnly: string := "AdminOnly"
  const MustBelongToHRDepartment: string := "MustBelongToHRDepartment"
  const HRManagerOnly: string := "HRManagerOnly"

  /** The policies registered at start-up, by name. */
  function Registry(): (registry: map<string, Policy>)
    ensures registry.Keys == {AdminOnly, MustBelongToHRDepartment, HRManagerOnly}
    ensures forall name :: name in registry ==> registry[name] != []
  {
    map[
      AdminOnly := [ClaimPresent("Admin")],
      MustBelongToHRDepartment := [ClaimEquals("Department", "HR")],
      HRManagerOnly := [ClaimEquals("Department", "HR"),
                        ClaimPresent("Manager"),
                        ProbationElapsed(HRManagerProbationRequirement(3))]
    ]
  }

  /** Resolve a policy by name and evaluate it; an unknown name is an error, never a silent denial. */
  function Authorize(registry: map<string, Policy>, policyName: string, claims: seq<Claim>,
                     now: DateTime, parse: DateParser): (v: Verdict)
    ensures v == Failed(PolicyNotFound(policyName)) <==> policyName !in registry
    ensures policyName in registry ==> v == EvaluatePolicy(claims, registry[policyName], now, parse)
  {
    if policyName in registry then EvaluatePolicy(claims, registry[policyName], now, parse)
    else Failed(PolicyNotFound(policyName))
  }

  /** Exactly the three policies are registered. */
  lemma RegisteredNames(policyName: string, claims: seq<Claim>, now: DateTime, parse: DateParser)
    ensures Authorize(Registry(), policyName, claims, now, parse).Failed?
            && Authorize(Registry(), policyName, claims, now, parse).error.PolicyNotFound?
            <==> policyName !in {AdminOnly, MustBelongToHRDepartment, HRManagerOnly}
  {
  }

  /** AdminOnly: some claim typed "Admin", whatever its value. */
  lemma AdminOnlyIffAdminClaim(claims: seq<Claim>, now: DateTime, parse: DateParser)
    ensures Authorize(Registry(), AdminOnly, claims, now, parse)
            == if exists c :: c in claims && c.claimType == "Admin" then Authorized else Forbidden
  {
  }

  /** MustBelongToHRDepartment: some claim typed "Department" with value exactly "HR". */
  lemma MustBelongToHRDepartmentIffHRClaim(claims: seq<Claim>, now: DateTime, parse: DateParser)
    ensures Authorize(Registry(), MustBelongToHRDepartment, claims, now, parse)
            == if Claim("Department", "HR") in claims then Authorized else Forbidden
  {
  }

  /**
   * HRManagerOnly, given the first EmploymentDate claim parses: Department is
   * "HR", a Manager claim is present, and more than 90 whole days have passed.
   */
  lemma HRManagerOnlyIff(claims: seq<Claim>, i: int, empDate: DateTime, now: DateTime, parse: DateParser)
    requires IsFirstOfType(claims, i, EmploymentDateClaimType)
    requires parse(claims[i].value) == Some(empDate)
    ensures Authorize(Registry(), HRManagerOnly, claims, now, parse) == Authorized
            <==> && Claim("Department", "HR") in claims
                 && (exists c :: c in claims && c.claimType == "Manager")
                 && ElapsedDays(now, empDate) > 90
    ensures Authorize(Registry(), HRManagerOnly, claims, now, parse) != Authorized
            ==> Authorize(Registry(), HRManagerOnly, claims, now, parse) == Forbidden
  {
    SucceedsIffProbationElapsed(claims, i, empDate, HRManagerProbationRequirement(3), now, parse);
    var policy := Registry()[HRManagerOnly];
    assert policy[0] in policy && policy[1] in policy && policy[2] in policy;
    assert forall r :: r in policy ==> r == policy[0] || r == policy[1] || r == policy[2];
  }

  /** An unparsable first EmploymentDate claim makes HRManagerOnly fail with an error naming that value. */
  lemma HRManagerOnlyMalformedDate(claims: seq<Claim>, i: int, now: DateTime, parse: DateParser)
    requires IsFirstOfType(claims, i, EmploymentDateClaimType)
    requires parse(claims[i].value) == None
    ensures Authorize(Registry(), HRManagerOnly, claims, now, parse) == Failed(MalformedClaim(claims[i].value))
  {
    UnparsableFirstClaimIsError(claims, i, HRManagerProbationRequirement(3), now, parse);
    var policy := Registry()[HRManagerOnly];
    assert policy[2] in policy;
  }

  /** Without a Manager claim, or without an EmploymentDate claim, HRManagerOnly never authorizes. */
  lemma HRManagerOnlyNeedsManagerAndEmploymentDate(claims: seq<Claim>, now: DateTime, parse: DateParser)
    requires || (forall c :: c in claims ==> c.claimType != "Manager")
             || (forall c :: c in claims ==> c.claimType != EmploymentDateClaimType)
    ensures Authorize(Registry(), HRManagerOnly, claims, now, parse) != Authorized
  {
    var policy := Registry()[HRManagerOnly];
    if forall c :: c in claims ==> c.claimType != "Manager" {
      assert policy[1] in policy;
    } else {
      assert policy[2] in policy;
    }
  }

  /** Whoever HRManagerOnly authorizes, MustBelongToHRDepartment authorizes too. */
  lemma HRManagerOnlyImpliesHRDepartment(claims: seq<Claim>, now: DateTime, parse: DateParser)
    requires Authorize(Registry(), HRManagerOnly, claims, now, parse) == Authorized
    ensures Authorize(Registry(), MustBelongToHRDepartment, claims, now, parse) == Authorized
  {
    var policy := Registry()[HRManagerOnly];
    assert policy[0] in policy;
  }

  /**
   * Every probation requirement the registered policies use has 3 months, so
   * for them the corrected handler and the handler as written give the same
   * outcome: evaluating the registered policies is evaluating the code as written.
   */
  lemma RegisteredProbationMatchesCodeAsWritten(policyName: string, requirement: Requirement,
                                                claims: seq<Claim>, now: DateTime, parse: DateParser)
    requires policyName in Registry() && requirement in Registry()[policyName]
    requires requirement.ProbationElapsed?
    ensures EvaluateRequirement(claims, requirement, now, parse)
            == HandleRequirementAsWritten(claims, requirement.probation, now, parse)
  {
    assert requirement == ProbationElapsed(HRManagerProbationRequirement(3));
    AsWrittenAgreesWithoutOverflow(claims, requirement.probation, now, parse);
  }
}
