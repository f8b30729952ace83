/**
 * The claims of a GitHub Actions OIDC token and their structural validation: the issuer
 * (the `iss` claim of section 4.1.1 of RFC 7519) is checked first, then six required
 * claims, in a fixed order.
 */
module Claims {
  import opened Wrappers
  import opened Errors

  /** The only issuer the verifier accepts. */
  const GitHubIssuer: string := "https://token.actions.githubusercontent.com"

  /** The claims of a token; every claim is a string, the audience a list of strings. */
  datatype GitHubActionsClaims = GitHubActionsClaims(
    // registered claims used by the core
    issuer: string,
    subject: string,
    audience: seq<string>,
    // repository
    repository: string,
    repositoryOwner: string,
    repositoryOwnerId: string,
    repositoryVisibility: string,
    repositoryId: string,
    // git reference
    ref: string,
    refType: string,
    sha: string,
    // workflow run
    workflow: string,
    workflowRef: string,
    workflowSha: string,
    jobWorkflowRef: string,
    jobWorkflowSha: string,
    eventName: string,
    runId: string,
    runNumber: string,
    runAttempt: string,
    runnerEnvironment: string,
    // actor
    actor: string,
    actorId: string,
    triggeringActor: string,
    // deployment environment (optional)
    environment: string,
    // enterprise (optional)
    enterpriseId: string,
    enterpriseSlug: string)

  /** The JSON names of the required claims, in the order they are checked. */
  const RequiredClaims: seq<string> :=
    ["repository", "repository_owner", "ref", "workflow", "event_name", "actor"]

  /** The values of the required claims, in the same order. */
  function RequiredValues(c: GitHubActionsClaims): (vs: seq<string>)
    ensures |vs| == |RequiredClaims|
  {
    [c.repository, c.repositoryOwner, c.ref, c.workflow, c.eventName, c.actor]
  }

  /** The error for an empty required claim: its reason names the claim. */
  function MissingClaim(name: string): (e: Error)
    ensures e.ValidationError? && e.err == InvalidToken && e.reason == name + " claim is required"
  {
    NewValidationError(InvalidToken, name + " claim is required")
  }

  /**
   * `Validate`: nil when the issuer is GitHub's and every required claim is non-empty;
   * otherwise the error for the issuer, or for the first empty required claim.
   */
  function Validate(c: GitHubActionsClaims): (r: Option<Error>)
    ensures r.None? <==>
      c.issuer == GitHubIssuer && forall k :: 0 <= k < |RequiredClaims| ==> RequiredValues(c)[k] != ""
    ensures c.issuer == GitHubIssuer && r.Some? ==>
      exists k :: 0 <= k < |RequiredClaims| && RequiredValues(c)[k] == ""
        && (forall j :: 0 <= j < k ==> RequiredValues(c)[j] != "")
        && r == Some(MissingClaim(RequiredClaims[k]))
        && r.value.err == InvalidToken && r.value.reason == RequiredClaims[k] + " claim is required"
    ensures c.issuer != GitHubIssuer ==>
      r == Some(ValidationError(InvalidIssuer, "expected https://token.actions.githubusercontent.com"))
  {
    var vs := RequiredValues(c);
    assert vs[0] == c.repository && vs[1] == c.repositoryOwner && vs[2] == c.ref;
    assert vs[3] == c.workflow && vs[4] == c.eventName && vs[5] == c.actor;
    if c.issuer != GitHubIssuer then
      Some(NewValidationError(InvalidIssuer, "expected https://token.actions.githubusercontent.com"))
    else if c.repository == "" then
      Some(MissingClaim("repository"))
    else if c.repositoryOwner == "" then
      Some(MissingClaim("repository_owner"))
    else if c.ref == "" then
      Some(MissingClaim("ref"))
    else if c.workflow == "" then
      Some(MissingClaim("workflow"))
    else if c.eventName == "" then
      Some(MissingClaim("event_name"))
    else if c.actor == "" then
      Some(MissingClaim("actor"))
    else
      None
  }

  /**
   * Only the issuer and the six required claims decide validation: the optional and
   * informational claims (environment, triggering actor, enterprise, ref type, visibility,
   * identifiers, audience) never change the outcome.
   */
  lemma OnlyRequiredClaimsMatter(c1: GitHubActionsClaims, c2: GitHubActionsClaims)
    requires c1.issuer == c2.issuer && RequiredValues(c1) == RequiredValues(c2)
    ensures Validate(c1) == Validate(c2)
  {
    assert RequiredValues(c1)[0] == RequiredValues(c2)[0];
    assert RequiredValues(c1)[1] == RequiredValues(c2)[1];
    assert RequiredValues(c1)[2] == RequiredValues(c2)[2];
    assert RequiredValues(c1)[3] == RequiredValues(c2)[3];
    assert RequiredValues(c1)[4] == RequiredValues(c2)[4];
    assert RequiredValues(c1)[5] == RequiredValues(c2)[5];
  }

  /** Every validation failure is an InvalidIssuer or an InvalidToken ValidationError. */
  lemma ValidationCategories(c: GitHubActionsClaims)
    ensures Validate(c).Some? ==>
      Is(Validate(c).value, InvalidIssuer) != Is(Validate(c).value, InvalidToken)
    ensures Validate(c).Some? ==>
      (Is(Validate(c).value, InvalidIssuer) <==> c.issuer != GitHubIssuer)
  {
  }
}
