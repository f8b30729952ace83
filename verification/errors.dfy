/**
 * The failure taxonomy of the verifier: eight sentinel categories, the ValidationError
 * wrapper (a category plus a human-readable reason) and the PolicyError raised when a
 * policy is rejected at construction time.
 */
module Errors {
  import opened Wrappers
  import opened Text

  /** The eight sentinel errors, one per failure category. */
  datatype Category =
    | InvalidToken
    | TokenExpired
    | InvalidSignature
    | InvalidAudience
    | InvalidIssuer
    | AccessDenied
    | JWKSFetch
    | KeyNotFound

  /** The text each sentinel was created with. */
  function CategoryText(c: Category): string
  {
    match c
    case InvalidToken => "invalid token"
    case TokenExpired => "token expired"
    case InvalidSignature => "invalid signature"
    case InvalidAudience => "invalid audience"
    case InvalidIssuer => "invalid issuer"
    case AccessDenied => "access denied by policy"
    case JWKSFetch => "failed to fetch JWKS"
    case KeyNotFound => "signing key not found"
  }

  /** The error values the core returns. */
  datatype Error =
    | Sentinel(category: Category)
    | ValidationError(err: Category, reason: string)
    | PolicyError(rule: string, reason: string)

  /** `NewValidationError`: the category and the reason are stored as given. */
  function NewValidationError(err: Category, reason: string): (e: Error)
    ensures Unwrap(e) == Some(Sentinel(err))
    ensures e.ValidationError? && e.err == err && e.reason == reason
  {
    ValidationError(err, reason)
  }

  /** `NewPolicyError`: the rule name and the reason are stored as given. */
  function NewPolicyError(rule: string, reason: string): (e: Error)
    ensures Unwrap(e) == None
    ensures e.PolicyError? && e.rule == rule && e.reason == reason
  {
    PolicyError(rule, reason)
  }

  /** `Unwrap`: a ValidationError yields its category's sentinel; nothing else wraps. */
  function Unwrap(e: Error): Option<Error>
  {
    if e.ValidationError? then Some(Sentinel(e.err)) else None
  }

  /** `errors.Is(e, <sentinel c>)`: e is that sentinel, or unwraps to it. */
  predicate Is(e: Error, c: Category)
  {
    e == Sentinel(c) || (Unwrap(e).Some? && Unwrap(e).value == Sentinel(c))
  }

  /** `Error()`: the message of each kind of error. */
  function Message(e: Error): string
  {
    match e
    case Sentinel(c) => CategoryText(c)
    case ValidationError(c, reason) =>
      if reason != "" then CategoryText(c) + ": " + reason else CategoryText(c)
    case PolicyError(rule, reason) =>
      if rule != "" then "policy error in rule " + Quote(rule) + ": " + reason
      else "policy error: " + reason
  }

  /** The category of a ValidationError answers `errors.Is` whatever its reason. */
  lemma CategoryRecoverable(c: Category, reason: string, target: Category)
    ensures Is(NewValidationError(c, reason), target) <==> c == target
  {
  }

  /** The eight sentinels are pairwise distinct, as values and as texts. */
  lemma SentinelsDistinct(a: Category, b: Category)
    requires a != b
    ensures !Is(Sentinel(a), b)
    ensures CategoryText(a) != CategoryText(b)
  {
  }

  /** No sentinel text contains the `:` that separates it from a reason. */
  lemma NoColonInCategoryText(c: Category, k: nat)
    requires k < |CategoryText(c)|
    ensures CategoryText(c)[k] != ':'
  {
  }

  /**
   * A PolicyError message shows whether a rule was named: the named form reads
   * `policy error in rule "<rule>": <reason>`, the unnamed one `policy error: <reason>`, and
   * the two never coincide.
   */
  lemma PolicyMessageShowsRule(rule: string, r1: string, r2: string)
    requires rule != ""
    ensures Message(PolicyError(rule, r1)) != Message(PolicyError("", r2))
    ensures Message(PolicyError("", r2))[|"policy error: "|..] == r2
  {
    var named := Message(PolicyError(rule, r1));
    var unnamed := Message(PolicyError("", r2));
    assert named[12] == ' ';
    assert unnamed[12] == ':';
  }

  /**
   * A ValidationError message is unambiguous: the message alone determines both the
   * category and the reason.
   */
  lemma {:induction false} ValidationMessageUnambiguous(c1: Category, r1: string, c2: Category, r2: string)
    requires Message(ValidationError(c1, r1)) == Message(ValidationError(c2, r2))
    ensures c1 == c2 && r1 == r2
  {
    var m := Message(ValidationError(c1, r1));
    var t1, t2 := CategoryText(c1), CategoryText(c2);
    if r1 == "" && r2 == "" {
      if c1 != c2 { SentinelsDistinct(c1, c2); }
    } else if r1 == "" {
      assert m[|t2|] == ':';
      NoColonInCategoryText(c1, |t2|);
    } else if r2 == "" {
      assert m[|t1|] == ':';
      NoColonInCategoryText(c2, |t1|);
    } else if |t1| < |t2| {
      assert m[|t1|] == ':' && m[|t1|] == t2[|t1|];
      NoColonInCategoryText(c2, |t1|);
    } else if |t2| < |t1| {
      assert m[|t2|] == ':' && m[|t2|] == t1[|t2|];
      NoColonInCategoryText(c1, |t2|);
    } else {
      assert t1 == m[..|t1|] == t2;
      if c1 != c2 { SentinelsDistinct(c1, c2); }
      assert r1 == m[|t1| + 2..] == r2;
    }
  }
}
