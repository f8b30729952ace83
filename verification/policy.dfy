/**
 * The access-control policy: ordered rules whose conditions are lists of glob patterns over
 * nine claims. Evaluation is first-match-wins with a default; validation is done once, when
 * a verifier is built.
 */
module Policies {
  import opened Wrappers
  import opened Errors
  import opened Matcher
  import opened Claims

  /** The two meaningful effects; any other effect string is stored as is. */
  const EffectAllow: string := "allow"
  const EffectDeny: string := "deny"

  /** One pattern list per policy-relevant claim; an empty list imposes nothing. */
  datatype Conditions = Conditions(
    repository: seq<string>,
    repositoryOwner: seq<string>,
    repositoryVisibility: seq<string>,
    ref: seq<string>,
    refType: seq<string>,
    workflow: seq<string>,
    eventName: seq<string>,
    actor: seq<string>,
    environment: seq<string>)

  datatype Rule = Rule(name: string, conditions: Conditions, effect: string)

  datatype Policy = Policy(rules: seq<Rule>, defaultDeny: bool)

  datatype EvaluationResult = EvaluationResult(allowed: bool, matchedRule: string, reason: string)

  /** The nine claims a condition can constrain. */
  datatype Attribute =
    | Repository | RepositoryOwner | RepositoryVisibility | Ref | RefType
    | Workflow | EventName | Actor | Environment

  /** The patterns a condition set gives for an attribute. */
  function Patterns(cond: Conditions, a: Attribute): seq<string>
  {
    match a
    case Repository => cond.repository
    case RepositoryOwner => cond.repositoryOwner
    case RepositoryVisibility => cond.repositoryVisibility
    case Ref => cond.ref
    case RefType => cond.refType
    case Workflow => cond.workflow
    case EventName => cond.eventName
    case Actor => cond.actor
    case Environment => cond.environment
  }

  /** The claim value an attribute's patterns are matched against. */
  function ClaimValue(claims: GitHubActionsClaims, a: Attribute): string
  {
    match a
    case Repository => claims.repository
    case RepositoryOwner => claims.repositoryOwner
    case RepositoryVisibility => claims.repositoryVisibility
    case Ref => claims.ref
    case RefType => claims.refType
    case Workflow => claims.workflow
    case EventName => claims.eventName
    case Actor => claims.actor
    case Environment => claims.environment
  }

  /**
   * One condition holds when its list is empty, or when some pattern of the list matches the
   * claim; an absent (empty) environment claim matches no environment list.
   */
  predicate ConditionHolds(cond: Conditions, a: Attribute, claims: GitHubActionsClaims)
  {
    var ps := Patterns(cond, a);
    ps == [] || (!(a == Environment && ClaimValue(claims, a) == "") && AnyMatches(ps, ClaimValue(claims, a)))
  }

  /** A rule applies when all nine conditions hold (AND of ORs). */
  predicate RuleMatches(rule: Rule, claims: GitHubActionsClaims)
  {
    forall a: Attribute :: ConditionHolds(rule.conditions, a, claims)
  }

  /** `matchesRule`: checks the nine conditions in turn and stops at the first that fails. */
  method MatchesRule(rule: Rule, claims: GitHubActionsClaims) returns (b: bool)
    ensures b <==> RuleMatches(rule, claims)
  {
    var cond := rule.conditions;
    var m: bool;
    if |cond.repository| > 0 {
      m := MatchAny(cond.repository, claims.repository);
      if !m {
        assert !ConditionHolds(cond, Repository, claims);
        return false;
      }
    }
    if |cond.repositoryOwner| > 0 {
      m := MatchAny(cond.repositoryOwner, claims.repositoryOwner);
      if !m {
        assert !ConditionHolds(cond, RepositoryOwner, claims);
        return false;
      }
    }
    if |cond.repositoryVisibility| > 0 {
      m := MatchAny(cond.repositoryVisibility, claims.repositoryVisibility);
      if !m {
        assert !ConditionHolds(cond, RepositoryVisibility, claims);
        return false;
      }
    }
    if |cond.ref| > 0 {
      m := MatchAny(cond.ref, claims.ref);
      if !m {
        assert !ConditionHolds(cond, Ref, claims);
        return false;
      }
    }
    if |cond.refType| > 0 {
      m := MatchAny(cond.refType, claims.refType);
      if !m {
        assert !ConditionHolds(cond, RefType, claims);
        return false;
      }
    }
    if |cond.workflow| > 0 {
      m := MatchAny(cond.workflow, claims.workflow);
      if !m {
        assert !ConditionHolds(cond, Workflow, claims);
        return false;
      }
    }
    if |cond.eventName| > 0 {
      m := MatchAny(cond.eventName, claims.eventName);
      if !m {
        assert !ConditionHolds(cond, EventName, claims);
        return false;
      }
    }
    if |cond.actor| > 0 {
      m := MatchAny(cond.actor, claims.actor);
      if !m {
        assert !ConditionHolds(cond, Actor, claims);
        return false;
      }
    }
    if |cond.environment| > 0 {
      if claims.environment == "" {
        assert !ConditionHolds(cond, Environment, claims);
        return false;
      }
      m := MatchAny(cond.environment, claims.environment);
      if !m {
        assert !ConditionHolds(cond, Environment, claims);
        return false;
      }
    }
    forall a: Attribute
      ensures ConditionHolds(cond, a, claims)
    {
      match a
      case Repository =>
      case RepositoryOwner =>
      case RepositoryVisibility =>
      case Ref =>
      case RefType =>
      case Workflow =>
      case EventName =>
      case Actor =>
      case Environment =>
    }
    return true;
  }

  /** The result when the rule decides: its effect, its name, and the reason naming it. */
  function RuleResult(rule: Rule): EvaluationResult
  {
    EvaluationResult(rule.effect == EffectAllow, rule.name,
                     if rule.name != "" then "rule: " + rule.name else "default")
  }

  /** The result when no rule matches. */
  function DefaultResult(defaultDeny: bool): EvaluationResult
  {
    if defaultDeny then EvaluationResult(false, "", "default deny policy")
    else EvaluationResult(true, "", "default allow (no matching rules)")
  }

  /** The decision of the rules from index `i` on: the first that matches, else the default. */
  function DecideFrom(rules: seq<Rule>, i: nat, defaultDeny: bool, claims: GitHubActionsClaims): EvaluationResult
    requires i <= |rules|
    decreases |rules| - i
  {
    if i == |rules| then DefaultResult(defaultDeny)
    else if RuleMatches(rules[i], claims) then RuleResult(rules[i])
    else DecideFrom(rules, i + 1, defaultDeny, claims)
  }

  /** The decision for an optional policy; no policy allows everything. */
  function Decide(p: Option<Policy>, claims: GitHubActionsClaims): EvaluationResult
  {
    if p.None? then EvaluationResult(true, "", "no policy configured")
    else DecideFrom(p.value.rules, 0, p.value.defaultDeny, claims)
  }

  /** `Evaluate`: scans the rules in order and returns at the first that matches. */
  method Evaluate(p: Option<Policy>, claims: GitHubActionsClaims) returns (r: EvaluationResult)
    ensures r == Decide(p, claims)
  {
    if p.None? {
      return EvaluationResult(true, "", "no policy configured");
    }
    var rules := p.value.rules;
    for i := 0 to |rules|
      invariant DecideFrom(rules, i, p.value.defaultDeny, claims) == Decide(p, claims)
    {
      var rule := rules[i];
      var m := MatchesRule(rule, claims);
      if m {
        var allowed := rule.effect == EffectAllow;
        var reason := "default";
        if rule.name != "" {
          reason := "rule: " + rule.name;
        }
        return EvaluationResult(allowed, rule.name, reason);
      }
    }
    if p.value.defaultDeny {
      return EvaluationResult(false, "", "default deny policy");
    }
    return EvaluationResult(true, "", "default allow (no matching rules)");
  }

  /** Without a policy every set of claims is allowed, with no matched rule. */
  lemma NoPolicyAllows(claims: GitHubActionsClaims)
    ensures Decide(None, claims).allowed
    ensures Decide(None, claims).matchedRule == ""
    ensures Decide(None, claims).reason == "no policy configured"
  {
  }

  /**
   * The first matching rule decides: access is allowed iff its effect is exactly "allow",
   * the matched rule is its name, and the reason names it (or says "default" when it is
   * unnamed). Later rules are not consulted.
   */
  lemma {:induction false} FirstMatchWins(p: Policy, claims: GitHubActionsClaims, i: nat)
    requires i < |p.rules| && RuleMatches(p.rules[i], claims)
    requires forall j :: 0 <= j < i ==> !RuleMatches(p.rules[j], claims)
    ensures Decide(Some(p), claims).allowed <==> p.rules[i].effect == EffectAllow
    ensures Decide(Some(p), claims).matchedRule == p.rules[i].name
    ensures Decide(Some(p), claims).reason ==
      (if p.rules[i].name == "" then "default" else "rule: " + p.rules[i].name)
  {
    SkipNonMatching(p.rules, 0, i, p.defaultDeny, claims);
  }

  /** Rules that do not match are skipped. */
  lemma {:induction false} SkipNonMatching(rules: seq<Rule>, lo: nat, hi: nat, defaultDeny: bool, claims: GitHubActionsClaims)
    requires lo <= hi <= |rules|
    requires forall j :: lo <= j < hi ==> !RuleMatches(rules[j], claims)
    ensures DecideFrom(rules, lo, defaultDeny, claims) == DecideFrom(rules, hi, defaultDeny, claims)
    decreases hi - lo
  {
    if lo < hi {
      SkipNonMatching(rules, lo + 1, hi, defaultDeny, claims);
    }
  }

  /**
   * When no rule matches, the default decides: allowed iff not default-deny, no matched
   * rule, and a reason saying which default applied.
   */
  lemma NoMatchDefault(p: Policy, claims: GitHubActionsClaims)
    requires forall j :: 0 <= j < |p.rules| ==> !RuleMatches(p.rules[j], claims)
    ensures Decide(Some(p), claims).allowed == !p.defaultDeny
    ensures Decide(Some(p), claims).matchedRule == ""
    ensures Decide(Some(p), claims).reason ==
      (if p.defaultDeny then "default deny policy" else "default allow (no matching rules)")
  {
    SkipNonMatching(p.rules, 0, |p.rules|, p.defaultDeny, claims);
  }

  /** Rules appended after a matching rule never change the decision. */
  lemma {:induction false} LaterRulesIgnored(p: Policy, more: seq<Rule>, claims: GitHubActionsClaims, i: nat)
    requires i < |p.rules| && RuleMatches(p.rules[i], claims)
    ensures Decide(Some(Policy(p.rules + more, p.defaultDeny)), claims) == Decide(Some(p), claims)
  {
    var rules := p.rules + more;
    var k :| 0 <= k <= i && RuleMatches(p.rules[k], claims)
      && forall j :: 0 <= j < k ==> !RuleMatches(p.rules[j], claims) by {
      FirstMatchingIndex(p.rules, claims, i);
    }
    SkipNonMatching(p.rules, 0, k, p.defaultDeny, claims);
    assert forall j :: 0 <= j <= k ==> rules[j] == p.rules[j];
    SkipNonMatching(rules, 0, k, p.defaultDeny, claims);
  }

  /** If some rule at or before `i` matches, there is a first one. */
  lemma {:induction false} FirstMatchingIndex(rules: seq<Rule>, claims: GitHubActionsClaims, i: nat)
    requires i < |rules| && RuleMatches(rules[i], claims)
    ensures exists k :: (0 <= k <= i && RuleMatches(rules[k], claims)
      && forall j :: 0 <= j < k ==> !RuleMatches(rules[j], claims))
  {
    if exists k :: 0 <= k < i && RuleMatches(rules[k], claims) {
      var k :| 0 <= k < i && RuleMatches(rules[k], claims);
      FirstMatchingIndex(rules, claims, k);
    } else {
      assert forall j :: 0 <= j < i ==> !RuleMatches(rules[j], claims);
    }
  }

  /**
   * A rule with a non-empty environment list never matches claims without an environment,
   * whatever its patterns are (even `**`).
   */
  lemma AbsentEnvironmentNeverMatches(rule: Rule, claims: GitHubActionsClaims)
    requires rule.conditions.environment != [] && claims.environment == ""
    ensures !RuleMatches(rule, claims)
  {
    assert !ConditionHolds(rule.conditions, Environment, claims);
  }

  /** A rule matches iff every non-empty condition list has a pattern matching its claim. */
  lemma RuleMatchesIffListsMatch(rule: Rule, claims: GitHubActionsClaims)
    requires claims.environment != ""
    ensures RuleMatches(rule, claims) <==>
      forall a: Attribute :: Patterns(rule.conditions, a) != [] ==>
        exists k :: 0 <= k < |Patterns(rule.conditions, a)|
          && Matches(Patterns(rule.conditions, a)[k], ClaimValue(claims, a))
  {
    forall a: Attribute
      ensures ConditionHolds(rule.conditions, a, claims) <==>
        (Patterns(rule.conditions, a) != [] ==> AnyMatches(Patterns(rule.conditions, a), ClaimValue(claims, a)))
    {
      if a == Environment {
        assert ClaimValue(claims, a) != "";
      }
    }
  }

  // ----- construction-time validation -----

  /** An effect is valid when it is exactly "allow" or "deny". */
  predicate ValidEffect(effect: string)
  {
    effect == EffectAllow || effect == EffectDeny
  }

  /** A rule has a condition when at least one of its nine lists is non-empty. */
  predicate HasCondition(cond: Conditions)
  {
    exists a: Attribute :: Patterns(cond, a) != []
  }

  /**
   * Go's `string(rune(i))`: the index is truncated to a 32-bit rune; a negative rune, a
   * surrogate or a value above U+10FFFF becomes U+FFFD. The result is one character whose
   * code is the index, not the index written in decimal.
   */
  function RuneString(i: int): (s: string)
    ensures |s| == 1
    ensures 0 <= i < 0xD800 || 0xE000 <= i <= 0x10FFFF ==> s[0] as int == i
  {
    var w := i % 0x1_0000_0000;
    var r := if w >= 0x8000_0000 then w - 0x1_0000_0000 else w;
    if 0 <= r < 0xD800 || 0xE000 <= r <= 0x10FFFF then [r as char] else [0xFFFD as char]
  }

  /** The complaint about rule `i`, if any: first its effect, then its conditions. */
  function RuleProblem(i: nat, rule: Rule): (r: Option<Error>)
    ensures r.None? <==> ValidEffect(rule.effect) && HasCondition(rule.conditions)
    ensures !ValidEffect(rule.effect) ==>
      r == Some(PolicyError(rule.name, "effect must be 'allow' or 'deny'"))
    ensures ValidEffect(rule.effect) && !HasCondition(rule.conditions) ==>
      r == Some(PolicyError(if rule.name == "" then RuneString(i) else rule.name,
                            "rule must have at least one condition"))
  {
    var cond := rule.conditions;
    if rule.effect != EffectAllow && rule.effect != EffectDeny then
      Some(NewPolicyError(rule.name, "effect must be 'allow' or 'deny'"))
    else if |cond.repository| == 0 && |cond.repositoryOwner| == 0
      && |cond.repositoryVisibility| == 0 && |cond.ref| == 0 && |cond.refType| == 0
      && |cond.workflow| == 0 && |cond.eventName| == 0 && |cond.actor| == 0
      && |cond.environment| == 0
    then
      var ruleName := if rule.name == "" then RuneString(i) else rule.name;
      Some(NewPolicyError(ruleName, "rule must have at least one condition"))
    else
      assert Patterns(cond, Repository) != [] || Patterns(cond, RepositoryOwner) != []
        || Patterns(cond, RepositoryVisibility) != [] || Patterns(cond, Ref) != []
        || Patterns(cond, RefType) != [] || Patterns(cond, Workflow) != []
        || Patterns(cond, EventName) != [] || Patterns(cond, Actor) != []
        || Patterns(cond, Environment) != [];
      None
  }

  /** The first complaint about the rules from index `i` on. */
  function FirstProblemFrom(rules: seq<Rule>, i: nat): Option<Error>
    requires i <= |rules|
    decreases |rules| - i
  {
    if i == |rules| then None
    else if RuleProblem(i, rules[i]).Some? then RuleProblem(i, rules[i])
    else FirstProblemFrom(rules, i + 1)
  }

  /** The outcome of validating an optional policy. */
  function PolicyCheck(p: Option<Policy>): Option<Error>
  {
    if p.None? then None
    else if |p.value.rules| == 0 then Some(PolicyError("", "policy must have at least one rule"))
    else FirstProblemFrom(p.value.rules, 0)
  }

  /** `Validate`: rejects an empty rule list, then the first rule with a problem. */
  method Validate(p: Option<Policy>) returns (err: Option<Error>)
    ensures err == PolicyCheck(p)
  {
    if p.None? {
      return None;
    }
    var rules := p.value.rules;
    if |rules| == 0 {
      return Some(NewPolicyError("", "policy must have at least one rule"));
    }
    for i := 0 to |rules|
      invariant FirstProblemFrom(rules, i) == PolicyCheck(p)
    {
      var rule := rules[i];
      if rule.effect != EffectAllow && rule.effect != EffectDeny {
        return Some(NewPolicyError(rule.name, "effect must be 'allow' or 'deny'"));
      }
      var cond := rule.conditions;
      if |cond.repository| == 0 && |cond.repositoryOwner| == 0
        && |cond.repositoryVisibility| == 0 && |cond.ref| == 0 && |cond.refType| == 0
        && |cond.workflow| == 0 && |cond.eventName| == 0 && |cond.actor| == 0
        && |cond.environment| == 0
      {
        var ruleName := rule.name;
        if ruleName == "" {
          ruleName := RuneString(i);
        }
        return Some(NewPolicyError(ruleName, "rule must have at least one condition"));
      }
    }
    return None;
  }

  /** Later rules are clean when no complaint is found from `i` on. */
  lemma {:induction false} NoProblemFrom(rules: seq<Rule>, i: nat)
    requires i <= |rules|
    ensures FirstProblemFrom(rules, i).None? <==>
      forall j :: i <= j < |rules| ==> RuleProblem(j, rules[j]).None?
    decreases |rules| - i
  {
    if i < |rules| {
      NoProblemFrom(rules, i + 1);
    }
  }

  /** The complaint found from `i` on is about the first bad rule at or after `i`. */
  lemma {:induction false} ProblemIsFirstFrom(rules: seq<Rule>, i: nat)
    requires i <= |rules| && FirstProblemFrom(rules, i).Some?
    ensures exists k :: (i <= k < |rules|
      && (forall j :: i <= j < k ==> RuleProblem(j, rules[j]).None?)
      && FirstProblemFrom(rules, i) == RuleProblem(k, rules[k]))
    decreases |rules| - i
  {
    if RuleProblem(i, rules[i]).None? {
      ProblemIsFirstFrom(rules, i + 1);
      var k :| i + 1 <= k < |rules|
        && (forall j :: i + 1 <= j < k ==> RuleProblem(j, rules[j]).None?)
        && FirstProblemFrom(rules, i + 1) == RuleProblem(k, rules[k]);
      assert forall j :: i <= j < k ==> RuleProblem(j, rules[j]).None?;
    }
  }

  /**
   * Validation succeeds iff there is no policy, or the rule list is non-empty and every rule
   * has a valid effect and at least one condition.
   */
  lemma PolicyCheckAcceptsIff(p: Option<Policy>)
    ensures PolicyCheck(p).None? <==>
      p.None? || (|p.value.rules| > 0 && forall i :: 0 <= i < |p.value.rules| ==>
        ValidEffect(p.value.rules[i].effect) && HasCondition(p.value.rules[i].conditions))
  {
    if p.Some? && |p.value.rules| > 0 {
      NoProblemFrom(p.value.rules, 0);
    }
  }

  /** A failed validation names the first rule, in order, that has a problem. */
  lemma PolicyCheckReportsFirst(p: Policy)
    requires |p.rules| > 0 && PolicyCheck(Some(p)).Some?
    ensures exists k :: (0 <= k < |p.rules|
      && (forall j :: 0 <= j < k ==> ValidEffect(p.rules[j].effect) && HasCondition(p.rules[j].conditions))
      && PolicyCheck(Some(p)) == RuleProblem(k, p.rules[k]))
  {
    ProblemIsFirstFrom(p.rules, 0);
  }

  /** An empty rule list is refused with a policy error that names no rule. */
  lemma EmptyRulesRejected(defaultDeny: bool)
    ensures PolicyCheck(Some(Policy([], defaultDeny))) ==
      Some(PolicyError("", "policy must have at least one rule"))
  {
  }

  /**
   * An unnamed, conditionless rule at index 1 is reported under the one-character name
   * U+0001, not under the decimal "1".
   */
  lemma UnnamedRuleNamedByCodePoint(p: Policy)
    requires |p.rules| == 2 && ValidEffect(p.rules[0].effect) && HasCondition(p.rules[0].conditions)
    requires ValidEffect(p.rules[1].effect) && !HasCondition(p.rules[1].conditions)
    requires p.rules[1].name == ""
    ensures PolicyCheck(Some(p)) == Some(PolicyError([1 as char], "rule must have at least one condition"))
    ensures PolicyCheck(Some(p)).value.rule != "1"
  {
    assert RuneString(1) == [1 as char];
    assert RuleProblem(0, p.rules[0]).None?;
    assert FirstProblemFrom(p.rules, 0) == FirstProblemFrom(p.rules, 1);
    assert RuleProblem(1, p.rules[1]) == Some(PolicyError([1 as char], "rule must have at least one condition"));
  }
}
