/**
 * The HR-manager probation requirement and its handler. The requirement only
 * carries a number of months; the handler looks at the principal's first
 * "EmploymentDate" claim, parses it as a date and succeeds when more than
 * 30 days per month have passed since then. It never fails a requirement
 * explicitly: it succeeds, abstains, or (when the date does not parse) the
 * parse error escapes.
 */
module Probation {
  import opened Wrappers
  import opened Claims
  import opened Time

  /** The claim type the handler looks for, matched exactly. */
  const EmploymentDateClaimType: string := "EmploymentDate"

  /** Immutable requirement: the probation length in (30-day) months. */
  datatype HRManagerProbationRequirement = HRManagerProbationRequirement(ProbationMonth: Int32)

  /** What one handler invocation reports for one requirement. */
  datatype Outcome =
    | Succeeded               // the handler called context.Succeed
    | Abstained               // the handler returned without deciding
    | ParseError(value: string) // DateTime.Parse threw on this claim value

  /** DateTime.Parse under the running culture: a DateTime, or None where it throws. */
  type DateParser = string -> Option<DateTime>

  /** The constructor stores its argument unchanged. */
  lemma ConstructorKeepsProbationMonth(probationMonth: Int32)
    ensures HRManagerProbationRequirement(probationMonth).ProbationMonth == probationMonth
  {
  }

  /** The handler exactly as written: the threshold `30 * ProbationMonth` is a C# int product and wraps. */
  function HandleRequirementAsWritten(claims: seq<Claim>, requirement: HRManagerProbationRequirement,
                                      now: DateTime, parse: DateParser): (r: Outcome)
    ensures !HasClaim(claims, EmploymentDateClaimType) ==> r == Abstained
    ensures r.ParseError? ==> FindFirst(claims, EmploymentDateClaimType) == Some(Claim(EmploymentDateClaimType, r.value))
                              && parse(r.value).None?
  {
    match FindFirst(claims, EmploymentDateClaimType)
    case None => Abstained
    case Some(claim) =>
      match parse(claim.value)
      case None => ParseError(claim.value)
      case Some(empDate) =>
        if ElapsedDays(now, empDate) > Wrap32(30 * requirement.ProbationMonth) then Succeeded else Abstained
  }

  /** The handler with the threshold computed without wrap-around: `30 * ProbationMonth` days. */
  function HandleRequirement(claims: seq<Claim>, requirement: HRManagerProbationRequirement,
                             now: DateTime, parse: DateParser): (r: Outcome)
    ensures !HasClaim(claims, EmploymentDateClaimType) ==> r == Abstained
    ensures r.ParseError? ==> FindFirst(claims, EmploymentDateClaimType) == Some(Claim(EmploymentDateClaimType, r.value))
                              && parse(r.value).None?
  {
    match FindFirst(claims, EmploymentDateClaimType)
    case None => Abstained
    case Some(claim) =>
      match parse(claim.value)
      case None => ParseError(claim.value)
      case Some(empDate) =>
        if ElapsedDays(now, empDate) > 30 * requirement.ProbationMonth then Succeeded else Abstained
  }

  /** Without a claim typed exactly "EmploymentDate" the handler abstains: never success, never an error. */
  lemma AbstainsWithoutEmploymentDate(claims: seq<Claim>, requirement: HRManagerProbationRequirement,
                                      now: DateTime, parse: DateParser)
    requires forall c :: c in claims ==> c.claimType != EmploymentDateClaimType
    ensures HandleRequirement(claims, requirement, now, parse) == Abstained
  {
  }

  /**
   * With the first EmploymentDate claim at position i parsing to `empDate`,
   * the handler succeeds iff the whole days since then exceed 30 per month,
   * and otherwise abstains.
   */
  lemma SucceedsIffProbationElapsed(claims: seq<Claim>, i: int, empDate: DateTime,
                                    requirement: HRManagerProbationRequirement, now: DateTime, parse: DateParser)
    requires IsFirstOfType(claims, i, EmploymentDateClaimType)
    requires parse(claims[i].value) == Some(empDate)
    ensures HandleRequirement(claims, requirement, now, parse)
            == if ElapsedDays(now, empDate) > 30 * requirement.ProbationMonth then Succeeded else Abstained
  {
    FirstIndexIsFound(claims, i, EmploymentDateClaimType);
  }

  /** An unparsable first EmploymentDate claim is an error, not an abstention. */
  lemma UnparsableFirstClaimIsError(claims: seq<Claim>, i: int,
                                    requirement: HRManagerProbationRequirement, now: DateTime, parse: DateParser)
    requires IsFirstOfType(claims, i, EmploymentDateClaimType)
    requires parse(claims[i].value) == None
    ensures HandleRequirement(claims, requirement, now, parse) == ParseError(claims[i].value)
  {
    FirstIndexIsFound(claims, i, EmploymentDateClaimType);
  }

  /**
   * The comparison is strict. With a non-negative probation, success means at
   * least 30 * ProbationMonth + 1 full days of ticks since the employment date.
   */
  lemma SucceedsIffEnoughTicks(claims: seq<Claim>, i: int, empDate: DateTime,
                               requirement: HRManagerProbationRequirement, now: DateTime, parse: DateParser)
    requires IsFirstOfType(claims, i, EmploymentDateClaimType)
    requires parse(claims[i].value) == Some(empDate)
    requires requirement.ProbationMonth >= 0
    ensures HandleRequirement(claims, requirement, now, parse) == Succeeded
            <==> now - empDate >= (30 * requirement.ProbationMonth + 1) * TicksPerDay
  {
    SucceedsIffProbationElapsed(claims, i, empDate, requirement, now, parse);
    MoreThanDaysIffTicks(now - empDate, 30 * requirement.ProbationMonth);
  }

  /** For three months: exactly 90 elapsed days abstains, one tick short of 91 days abstains, 91 days succeeds. */
  lemma ThreeMonthBoundary(empDate: DateTime)
    requires empDate + 91 * TicksPerDay <= MaxTicks
    ensures var claims := [Claim(EmploymentDateClaimType, "start")];
            var parse: DateParser := s => if s == "start" then Some(empDate) else None;
            var requirement := HRManagerProbationRequirement(3);
            && HandleRequirement(claims, requirement, empDate + 90 * TicksPerDay, parse) == Abstained
            && HandleRequirement(claims, requirement, empDate + 91 * TicksPerDay - 1, parse) == Abstained
            && HandleRequirement(claims, requirement, empDate + 91 * TicksPerDay, parse) == Succeeded
  {
    var claims := [Claim(EmploymentDateClaimType, "start")];
    var parse: DateParser := s => if s == "start" then Some(empDate) else None;
    assert IsFirstOfType(claims, 0, EmploymentDateClaimType);
    var requirement := HRManagerProbationRequirement(3);
    SucceedsIffEnoughTicks(claims, 0, empDate, requirement, empDate + 90 * TicksPerDay, parse);
    SucceedsIffEnoughTicks(claims, 0, empDate, requirement, empDate + 91 * TicksPerDay - 1, parse);
    SucceedsIffEnoughTicks(claims, 0, empDate, requirement, empDate + 91 * TicksPerDay, parse);
  }

  /** An employment date in the future never succeeds for a non-negative probation; nor is it an error. */
  lemma FutureEmploymentNeverSucceeds(claims: seq<Claim>, requirement: HRManagerProbationRequirement,
                                      now: DateTime, parse: DateParser)
    requires requirement.ProbationMonth >= 0
    requires match FindFirst(claims, EmploymentDateClaimType)
             case Some(claim) => parse(claim.value).Some? && parse(claim.value).value > now
             case None => true
    ensures HandleRequirement(claims, requirement, now, parse) == Abstained
  {
  }

  /** Success is monotone in time: what succeeds now still succeeds at any later moment. */
  lemma SuccessIsMonotoneInTime(claims: seq<Claim>, requirement: HRManagerProbationRequirement,
                                now: DateTime, later: DateTime, parse: DateParser)
    requires now <= later
    requires HandleRequirement(claims, requirement, now, parse) == Succeeded
    ensures HandleRequirement(claims, requirement, later, parse) == Succeeded
  {
    var empDate := parse(FindFirst(claims, EmploymentDateClaimType).value.value).value;
    TimeSpanDaysMonotone(now - empDate, later - empDate);
  }

  /** Claims issued after the first EmploymentDate claim cannot change the outcome. */
  lemma LaterClaimsIgnored(claims: seq<Claim>, later: seq<Claim>, requirement: HRManagerProbationRequirement,
                           now: DateTime, parse: DateParser)
    requires HasClaim(claims, EmploymentDateClaimType)
    ensures HandleRequirement(claims + later, requirement, now, parse) == HandleRequirement(claims, requirement, now, parse)
  {
    FindFirstIgnoresLaterClaims(claims, later, EmploymentDateClaimType);
  }

  /** Where 30 * ProbationMonth fits in an int, the handler as written and the corrected one agree. */
  lemma AsWrittenAgreesWithoutOverflow(claims: seq<Claim>, requirement: HRManagerProbationRequirement,
                                       now: DateTime, parse: DateParser)
    requires -71_582_788 <= requirement.ProbationMonth <= 71_582_788
    ensures HandleRequirementAsWritten(claims, requirement, now, parse) == HandleRequirement(claims, requirement, now, parse)
  {
  }

  /**
   * A probation of 71582789 months makes `30 * ProbationMonth` wrap to
   * -2147483626, so the handler as written grants an employee whose start
   * date lies in the future; the corrected handler abstains.
   */
  lemma OverflowGrantsFutureEmployee()
    ensures var claims := [Claim(EmploymentDateClaimType, "start")];
            var parse: DateParser := s => Some(TicksPerDay);
            var requirement := HRManagerProbationRequirement(71_582_789);
            && Wrap32(30 * requirement.ProbationMonth) == -2_147_483_626
            && HandleRequirementAsWritten(claims, requirement, 0, parse) == Succeeded
            && HandleRequirement(claims, requirement, 0, parse) == Abstained
  {
    var claims := [Claim(EmploymentDateClaimType, "start")];
    assert FindFirst(claims, EmploymentDateClaimType) == Some(claims[0]) by {
      assert claims[0] in claims;
    }
  }
}
