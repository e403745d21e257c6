/**
 * Concrete principals run through the registered policies: the principal the
 * demo login page signs in, and an HR manager at different employment ages.
 */
module Scenarios {
  import opened Wrappers
  import opened Claims
  import opened Time
  import opened Probation
  import opened Policies

  /** The claims the demo login issues for the "admin" user, in issue order. */
  function LoginClaims(): seq<Claim> {
    [ Claim("http://schemas.xmlsoap.org/ws/2005/05/identity/claims/name", "admin"),
      Claim("http://schemas.xmlsoap.org/ws/2005/05/identity/claims/emailaddress", "admin@mywebsite.com"),
      Claim("Department", "Hr"),
      Claim("Admin", "True"),
      Claim("Manager", "True"),
      Claim("EmplaymentDate", "2021-05-01") ]
  }

  /** The demo principal's claim types and values differ from those the policies look for. */
  lemma DemoPrincipalMisspellings()
    ensures forall c :: c in LoginClaims() ==> c.claimType != EmploymentDateClaimType
    ensures Claim("Department", "HR") !in LoginClaims()
    ensures Claim("Admin", "True") in LoginClaims()
  {
    var claims := LoginClaims();
    assert "EmplaymentDate"[4] != EmploymentDateClaimType[4];
    assert "Hr"[1] != "HR"[1];
    assert claims[3] == Claim("Admin", "True");
  }

  /**
   * The demo principal is an admin, but its department is "Hr" rather than
   * "HR" and its employment date is typed "EmplaymentDate": the probation
   * handler abstains and both HR policies forbid, whatever the time and the parser.
   */
  lemma DemoPrincipalVerdicts(now: DateTime, parse: DateParser)
    ensures HandleRequirement(LoginClaims(), HRManagerProbationRequirement(3), now, parse) == Abstained
    ensures Authorize(Registry(), AdminOnly, LoginClaims(), now, parse) == Authorized
    ensures Authorize(Registry(), MustBelongToHRDepartment, LoginClaims(), now, parse) == Forbidden
    ensures Authorize(Registry(), HRManagerOnly, LoginClaims(), now, parse) == Forbidden
  {
    var claims := LoginClaims();
    DemoPrincipalMisspellings();
    AbstainsWithoutEmploymentDate(claims, HRManagerProbationRequirement(3), now, parse);
    AdminOnlyIffAdminClaim(claims, now, parse);
    MustBelongToHRDepartmentIffHRClaim(claims, now, parse);
    HRManagerOnlyNeedsManagerAndEmploymentDate(claims, now, parse);
    var policy := Registry()[HRManagerOnly];
    assert policy[2] in policy;
  }

  /** An HR manager's claims with the employment date "2021-05-01". */
  function HRManagerClaims(department: string): seq<Claim> {
    [Claim("Department", department), Claim("Manager", "True"), Claim(EmploymentDateClaimType, "2021-05-01")]
  }

  /**
   * Employed 130 days ago: HRManagerOnly authorizes. Employed 60 days ago:
   * forbidden, since 60 <= 90. In department "Sales": MustBelongToHRDepartment forbids.
   */
  lemma HRManagerVerdicts(now: DateTime)
    requires now >= 130 * TicksPerDay
    ensures var parse130: DateParser := s => if s == "2021-05-01" then Some(now - 130 * TicksPerDay) else None;
            Authorize(Registry(), HRManagerOnly, HRManagerClaims("HR"), now, parse130) == Authorized
    ensures var parse60: DateParser := s => if s == "2021-05-01" then Some(now - 60 * TicksPerDay) else None;
            Authorize(Registry(), HRManagerOnly, HRManagerClaims("HR"), now, parse60) == Forbidden
    ensures forall parse: DateParser ::
              Authorize(Registry(), MustBelongToHRDepartment, HRManagerClaims("Sales"), now, parse) == Forbidden
  {
    var claims := HRManagerClaims("HR");
    assert IsFirstOfType(claims, 2, EmploymentDateClaimType);
    assert claims[0] in claims && claims[1] in claims;
    var parse130: DateParser := s => if s == "2021-05-01" then Some(now - 130 * TicksPerDay) else None;
    var parse60: DateParser := s => if s == "2021-05-01" then Some(now - 60 * TicksPerDay) else None;
    HRManagerOnlyIff(claims, 2, now - 130 * TicksPerDay, now, parse130);
    HRManagerOnlyIff(claims, 2, now - 60 * TicksPerDay, now, parse60);
    forall parse: DateParser
      ensures Authorize(Registry(), MustBelongToHRDepartment, HRManagerClaims("Sales"), now, parse) == Forbidden
    {
      MustBelongToHRDepartmentIffHRClaim(HRManagerClaims("Sales"), now, parse);
    }
  }
}
