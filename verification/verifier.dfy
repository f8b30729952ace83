/**
 * The verifier: configuration by options, construction that refuses an invalid policy, and
 * the verification pipeline (parse, claims, audience, policy) that stops at the first
 * failure. The JWT library's parse is an input: its outcome.
 */
module Verification {
  import opened Wrappers
  import opened Errors
  import opened Claims
  import Policies
  import opened Jwks

  /** A functional option of `New`; each sets one setting. */
  datatype VerifierOption =
    | WithPolicy(policy: Option<Policies.Policy>)
    | WithAudience(audience: string)
    | WithJWKSURL(url: string)
    | WithJWKSCacheDuration(duration: int)
    | WithHTTPClient(client: Option<HttpClient>)

  /** The configurable settings of a verifier, as a value. */
  datatype Settings = Settings(
    policy: Option<Policies.Policy>,
    audience: string,
    jwksURL: string,
    jwksCacheDuration: int,
    httpClient: Option<HttpClient>)

  /** The settings before any option: no policy, no audience, GitHub's key set, one hour, 10 s. */
  const Defaults: Settings :=
    Settings(None, "", DefaultJWKSURL, DefaultCacheDuration, Some(DefaultHttpClient))

  /** The effect of one option on the settings. */
  function ApplyOption(s: Settings, opt: VerifierOption): Settings
  {
    match opt
    case WithPolicy(p) => s.(policy := p)
    case WithAudience(a) => s.(audience := a)
    case WithJWKSURL(u) => s.(jwksURL := u)
    case WithJWKSCacheDuration(d) => s.(jwksCacheDuration := d)
    case WithHTTPClient(c) => s.(httpClient := c)
  }

  /** The settings after applying the options in order to the defaults. */
  function Configure(opts: seq<VerifierOption>): Settings
  {
    if opts == [] then Defaults
    else ApplyOption(Configure(opts[..|opts| - 1]), opts[|opts| - 1])
  }

  /**
   * The options apply in order, so the last option setting the audience wins; without one
   * the audience stays empty (and is not checked).
   */
  lemma {:induction false} LastAudienceWins(opts: seq<VerifierOption>)
    ensures (forall k :: 0 <= k < |opts| ==> !opts[k].WithAudience?) ==> Configure(opts).audience == ""
    ensures forall k :: (0 <= k < |opts| && opts[k].WithAudience?
      && (forall l :: k < l < |opts| ==> !opts[l].WithAudience?)) ==>
      Configure(opts).audience == opts[k].audience
    decreases |opts|
  {
    if opts != [] {
      var prefix := opts[..|opts| - 1];
      LastAudienceWins(prefix);
      assert forall k :: 0 <= k < |prefix| ==> prefix[k] == opts[k];
    }
  }

  /** Without a policy option the verifier has no policy. */
  lemma {:induction false} NoPolicyOptionNoPolicy(opts: seq<VerifierOption>)
    requires forall k :: 0 <= k < |opts| ==> !opts[k].WithPolicy?
    ensures Configure(opts).policy.None?
    decreases |opts|
  {
    if opts != [] {
      NoPolicyOptionNoPolicy(opts[..|opts| - 1]);
    }
  }

  /**
   * The outcome of the JWT library's parse (signature, expiry and not-before checks included):
   * parsed claims with the token's validity flag, or a failure with its kind and message.
   */
  datatype ParseOutcome =
    | Parsed(claims: GitHubActionsClaims, valid: bool)
    | ParseFailed(expired: bool, notYetValid: bool, message: string)

  /**
   * `parseToken`: expiry maps to TokenExpired, anything else to InvalidToken; only a valid
   * parsed token yields claims.
   */
  function ParseToken(outcome: ParseOutcome): (r: Result<GitHubActionsClaims, Error>)
    ensures r.Success? <==> outcome.Parsed? && outcome.valid
    ensures r.Success? ==> r.value == outcome.claims
    ensures r.Failure? ==> (Is(r.error, TokenExpired) <==> outcome.ParseFailed? && outcome.expired)
    ensures r.Failure? ==> (Is(r.error, InvalidToken) <==> !(outcome.ParseFailed? && outcome.expired))
  {
    match outcome
    case ParseFailed(expired, notYetValid, message) =>
      if expired then Failure(NewValidationError(TokenExpired, "token has expired"))
      else if notYetValid then Failure(NewValidationError(InvalidToken, "token not valid yet"))
      else Failure(NewValidationError(InvalidToken, message))
    case Parsed(claims, valid) =>
      if !valid then Failure(Sentinel(InvalidToken)) else Success(claims)
  }

  /** What a successful verification returns: the claims and the policy's decision. */
  datatype VerificationResult = VerificationResult(claims: GitHubActionsClaims,
                                                   policyResult: Policies.EvaluationResult)

  class Verifier {
    var policy: Option<Policies.Policy>
    var audience: string
    var jwksURL: string
    var jwksCacheDuration: int
    var httpClient: Option<HttpClient>
    var jwksFetcher: JWKSFetcher?

    /** The settings, as a value. */
    function CurrentSettings(): Settings
      reads this
    {
      Settings(policy, audience, jwksURL, jwksCacheDuration, httpClient)
    }

    /** A verifier holding the defaults and no fetcher yet. */
    constructor ()
      ensures CurrentSettings() == Defaults && jwksFetcher == null
    {
      policy := None;
      audience := "";
      jwksURL := DefaultJWKSURL;
      jwksCacheDuration := DefaultCacheDuration;
      httpClient := Some(HttpClient(10 * Second));
      jwksFetcher := null;
    }

    /** Applies one option to this verifier. */
    method Apply(opt: VerifierOption)
      modifies this
      ensures CurrentSettings() == ApplyOption(old(CurrentSettings()), opt)
      ensures jwksFetcher == old(jwksFetcher)
    {
      match opt
      case WithPolicy(p) => policy := p;
      case WithAudience(a) => audience := a;
      case WithJWKSURL(u) => jwksURL := u;
      case WithJWKSCacheDuration(d) => jwksCacheDuration := d;
      case WithHTTPClient(c) => httpClient := c;
    }

    /**
     * `New`: applies the options in order to the defaults, refuses a policy that fails
     * validation (fail closed), then creates the key fetcher from the URL and cache duration
     * and hands it the configured HTTP client.
     */
    static method New(opts: seq<VerifierOption>) returns (v: Verifier?, err: Option<Error>)
      ensures err == Policies.PolicyCheck(Configure(opts).policy)
      ensures v == null <==> err.Some?
      ensures v != null ==> fresh(v) && v.CurrentSettings() == Configure(opts)
      ensures v != null ==> v.jwksFetcher != null && fresh(v.jwksFetcher)
      ensures v != null ==> var s := Configure(opts); var f := v.jwksFetcher;
        f.url == (if s.jwksURL == "" then DefaultJWKSURL else s.jwksURL)
        && f.cacheDuration == (if s.jwksCacheDuration == 0 then DefaultCacheDuration else s.jwksCacheDuration)
        && f.httpClient == (if s.httpClient.Some? then s.httpClient.value else DefaultHttpClient)
        && f.cache == map[]
    {
      var w := new Verifier();
      for i := 0 to |opts|
        invariant w.CurrentSettings() == Configure(opts[..i])
        invariant w.jwksFetcher == null
      {
        assert opts[..i + 1][..i] == opts[..i];
        w.Apply(opts[i]);
      }
      assert opts[..|opts|] == opts;
      if w.policy.Some? {
        var e := Policies.Validate(w.policy);
        if e.Some? {
          return null, e;
        }
      }
      var f := new JWKSFetcher(w.jwksURL, w.jwksCacheDuration);
      if w.httpClient.Some? {
        f.httpClient := w.httpClient.value;
      }
      w.jwksFetcher := f;
      return w, None;
    }

    /**
     * `Verify`: parse, then the claims, then the audience, then the policy; the first failure
     * is returned and later steps do not run.
     */
    method Verify(outcome: ParseOutcome) returns (r: Result<VerificationResult, Error>)
      ensures ParseToken(outcome).Failure? ==> r == Failure(ParseToken(outcome).error)
      ensures ParseToken(outcome).Success? && Claims.Validate(outcome.claims).Some? ==>
        r == Failure(Claims.Validate(outcome.claims).value)
      ensures (ParseToken(outcome).Success? && Claims.Validate(outcome.claims).None?
        && audience != "" && audience !in outcome.claims.audience) ==>
        r == Failure(ValidationError(InvalidAudience, "audience mismatch"))
      ensures (ParseToken(outcome).Success? && Claims.Validate(outcome.claims).None?
        && (audience == "" || audience in outcome.claims.audience)) ==>
        var d := Policies.Decide(policy, outcome.claims);
        r == if d.allowed then Success(VerificationResult(outcome.claims, d))
             else Failure(ValidationError(AccessDenied, d.reason))
      ensures r.Success? ==>
        outcome == Parsed(r.value.claims, true)
        && Claims.Validate(r.value.claims).None?
        && (audience == "" || audience in r.value.claims.audience)
        && r.value.policyResult == Policies.Decide(policy, r.value.claims)
        && r.value.policyResult.allowed
      ensures (policy.None? && outcome.Parsed? && outcome.valid
        && Claims.Validate(outcome.claims).None?
        && (audience == "" || audience in outcome.claims.audience)) ==> r.Success?
    {
      var parsed := ParseToken(outcome);
      if parsed.Failure? {
        return Failure(parsed.error);
      }
      var claims := parsed.value;
      var invalid := Claims.Validate(claims);
      if invalid.Some? {
        return Failure(invalid.value);
      }
      if audience != "" {
        var valid := false;
        var aud := claims.audience;
        for i := 0 to |aud|
          invariant valid <==> audience in aud[..i]
        {
          if aud[i] == audience {
            valid := true;
            break;
          }
        }
        if !valid {
          return Failure(NewValidationError(InvalidAudience, "audience mismatch"));
        }
      }
      var policyResult := Policies.Evaluate(policy, claims);
      if !policyResult.allowed {
        return Failure(NewValidationError(AccessDenied, policyResult.reason));
      }
      return Success(VerificationResult(claims, policyResult));
    }
  }
}
