/**
 * Start-up registration of the policies, step by step: each AddPolicy call
 * fills a fresh policy builder through its callback and stores the built
 * policy in the options' policy map under its name.
 */
module Registration {
  import opened Probation
  import opened Policies

  /** Collects the requirements that one AddPolicy callback declares, in call order. */
  class AuthorizationPolicyBuilder {
    var Requirements: seq<Requirement>

    constructor ()
      ensures Requirements == []
    {
      Requirements := [];
    }

    /** RequireClaim(type): a claim of this type must be present. */
    method RequireClaim(claimType: string)
      modifies this
      ensures Requirements == old(Requirements) + [ClaimPresent(claimType)]
    {
      Requirements := Requirements + [ClaimPresent(claimType)];
    }

    /** RequireClaim(type, value): a claim of this type with this value must be present. */
    method RequireClaimValue(claimType: string, value: string)
      modifies this
      ensures Requirements == old(Requirements) + [ClaimEquals(claimType, value)]
    {
      Requirements := Requirements + [ClaimEquals(claimType, value)];
    }

    /** Requirements.Add(requirement): appends a custom requirement. */
    method AddRequirement(requirement: Requirement)
      modifies this
      ensures Requirements == old(Requirements) + [requirement]
    {
      Requirements := Requirements + [requirement];
    }
  }

  /** The authorization options: the map from policy name to policy. */
  class AuthorizationOptions {
    var PolicyMap: map<string, Policy>

    constructor ()
      ensures PolicyMap == map[]
    {
      PolicyMap := map[];
    }

    /**
     * Stores the policy built from `requirements` under `name`, replacing any
     * earlier policy of that name; a policy without requirements cannot be
     * built, and then nothing is stored. Every other name keeps its policy.
     */
    method AddPolicy(name: string, requirements: seq<Requirement>) returns (ok: bool)
      modifies this
      ensures ok <==> requirements != []
      ensures PolicyMap == if ok then old(PolicyMap)[name := requirements] else old(PolicyMap)
    {
      ok := requirements != [];
      if ok {
        PolicyMap := PolicyMap[name := requirements];
      }
    }
  }

  /** Replays the start-up registration and returns the resulting policy map: the three named policies. */
  method ConfigureAuthorization() returns (registry: map<string, Policy>)
    ensures registry == Registry()
    ensures registry.Keys == {AdminOnly, MustBelongToHRDepartment, HRManagerOnly}
  {
    var options := new AuthorizationOptions();

    var adminOnly := new AuthorizationPolicyBuilder();
    adminOnly.RequireClaim("Admin");
    assert adminOnly.Requirements == [ClaimPresent("Admin")];
    var ok := options.AddPolicy(AdminOnly, adminOnly.Requirements);

    var hrDepartment := new AuthorizationPolicyBuilder();
    hrDepartment.RequireClaimValue("Department", "HR");
    assert hrDepartment.Requirements == [ClaimEquals("Department", "HR")];
    ok := options.AddPolicy(MustBelongToHRDepartment, hrDepartment.Requirements);

    var hrManager := new AuthorizationPolicyBuilder();
    hrManager.RequireClaimValue("Department", "HR");
    hrManager.RequireClaim("Manager");
    hrManager.AddRequirement(ProbationElapsed(HRManagerProbationRequirement(3)));
    assert hrManager.Requirements == Registry()[HRManagerOnly];
    ok := options.AddPolicy(HRManagerOnly, hrManager.Requirements);

    registry := options.PolicyMap;
  }
}
