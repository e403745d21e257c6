/**
 * The signed-in principal's claims and the two lookups the probation handler
 * makes on them: "is there a claim of this type?" and "the first claim of
 * this type". Claims are kept in the order they were issued, because the
 * first-claim lookup depends on that order.
 */
module Claims {
  import opened Wrappers

  /** A typed attribute asserted about the principal. Types compare exactly (ordinal). */
  datatype Claim = Claim(claimType: string, value: string)

  /** Some claim has exactly this type, whatever its value. */
  predicate HasClaim(claims: seq<Claim>, claimType: string) {
    exists c :: c in claims && c.claimType == claimType
  }

  /** Some claim has exactly this type and exactly this value; such a claim is in particular a claim of the type. */
  predicate HasClaimValue(claims: seq<Claim>, claimType: string, value: string)
    ensures HasClaimValue(claims, claimType, value) ==> HasClaim(claims, claimType)
    ensures HasClaimValue(claims, claimType, value)
            <==> exists i :: 0 <= i < |claims| && claims[i].claimType == claimType && claims[i].value == value
  {
    Claim(claimType, value) in claims
  }

  /**
   * The presence tests depend only on which claims there are, not on their
   * order: of the lookups, only FindFirst sees the order.
   */
  lemma PresenceIgnoresClaimOrder(claims: seq<Claim>, reordered: seq<Claim>, claimType: string, value: string)
    requires multiset(claims) == multiset(reordered)
    ensures HasClaim(claims, claimType) == HasClaim(reordered, claimType)
    ensures HasClaimValue(claims, claimType, value) == HasClaimValue(reordered, claimType, value)
  {
    forall c ensures c in claims <==> c in reordered {
      assert c in claims <==> c in multiset(claims);
      assert c in reordered <==> c in multiset(reordered);
    }
  }

  /** Position `i` holds a claim of `claimType` and no earlier claim has that type. */
  predicate IsFirstOfType(claims: seq<Claim>, i: int, claimType: string) {
    && 0 <= i < |claims|
    && claims[i].claimType == claimType
    && forall j :: 0 <= j < i ==> claims[j].claimType != claimType
  }

  /** The position of the first claim of `claimType`, if there is one. */
  function FirstIndexOfType(claims: seq<Claim>, claimType: string): (r: Option<nat>)
    ensures r.None? <==> !HasClaim(claims, claimType)
    ensures r.Some? ==> IsFirstOfType(claims, r.value, claimType)
  {
    if claims == [] then None
    else if claims[0].claimType == claimType then Some(0)
    else
      match FirstIndexOfType(claims[1..], claimType)
      case None => None
      case Some(i) => Some(i + 1)
  }

  /** The first claim of `claimType` in issue order (ClaimsPrincipal.FindFirst), if any. */
  function FindFirst(claims: seq<Claim>, claimType: string): (r: Option<Claim>)
    ensures r.None? <==> !HasClaim(claims, claimType)
    ensures r.Some? ==> exists i :: IsFirstOfType(claims, i, claimType) && claims[i] == r.value
  {
    match FirstIndexOfType(claims, claimType)
    case None => None
    case Some(i) => Some(claims[i])
  }

  /** The first position of a type is what FirstIndexOfType finds, and FindFirst returns the claim there. */
  lemma FirstIndexIsFound(claims: seq<Claim>, i: int, claimType: string)
    requires IsFirstOfType(claims, i, claimType)
    ensures FirstIndexOfType(claims, claimType) == Some(i)
    ensures FindFirst(claims, claimType) == Some(claims[i])
  {
    assert claims[i] in claims;
  }

  /** Once a claim of `claimType` is present, claims issued after it cannot change what FindFirst returns. */
  lemma FindFirstIgnoresLaterClaims(claims: seq<Claim>, later: seq<Claim>, claimType: string)
    requires HasClaim(claims, claimType)
    ensures FindFirst(claims + later, claimType) == FindFirst(claims, claimType)
  {
    var i := FirstIndexOfType(claims, claimType).value;
    var all := claims + later;
    var c :| c in claims && c.claimType == claimType;
    assert c in all;
    assert forall j :: 0 <= j <= i ==> all[j] == claims[j];
  }
}
