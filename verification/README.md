# gha-auth trust decision, modelled in Dafny

This project models the part of gha-auth that decides whether to trust a GitHub Actions
OIDC token. gha-auth is a Go library that verifies these tokens. The model covers:

- the glob matcher with its `*` and `**` wildcards;
- the first-match-wins policy engine and its construction-time validation;
- the structural validation of the token's claims;
- the error taxonomy;
- the JSON Web Key Set cache, as a small state machine over `cache` and `cachedAt`;
- the verifier's construction and its verification pipeline.

Each Go file is one Dafny module:

| Go file | Dafny file, module |
|---|---|
| gha-auth/matcher.go | `matcher.dfy`, `Matcher` |
| gha-auth/policy.go | `policy.dfy`, `Policies` |
| gha-auth/claims.go | `claims.dfy`, `Claims` |
| gha-auth/errors.go | `errors.dfy`, `Errors` |
| jwks.go | `jwks.dfy`, `Jwks` |
| gha-auth/verifier.go, options.go | `verifier.dfy`, `Verification` |

`wrappers.dfy` holds `Option` and `Result`. `text.dfy` holds the two `fmt` renderings the
core uses: `%q` of a plain name and `%d`.

Every Go loop, and the Go functions that call them, is a Dafny method proved against a pure
specification function. The properties of the source are lemmas about those functions.

| Go function | Dafny method | specification |
|---|---|---|
| `matchInternal` | `MatchInternal` | `Matches` |
| `MatchAny` | `MatchAny` | `AnyMatches` |
| `matchesRule` | `MatchesRule` | `RuleMatches` |
| `Evaluate` | `Evaluate` | `Decide` |
| policy `Validate` | `Validate` | `PolicyCheck` |
| `refresh` | `Refresh` | `KeyMap` |
| `GetKey` | `GetKey` | `Lookup` |

Two Go types whose fields change in place are Dafny classes whose methods state the new
state:

- the key fetcher is `Jwks.JWKSFetcher`;
- the verifier is `Verification.Verifier`.

A few things become inputs:

- **Clock.** Times and durations are integers counting nanoseconds, and `now` is a parameter. A fetcher that has never refreshed holds Go's zero time, written `ZeroTime`.
- **Network.** The HTTP request and the JSON decoding of the key set are a `FetchOutcome`: a transport error, or a status with a decoded or malformed body.
- **Base64url.** Unpadded base64url decoding (section 5 of RFC 4648) is a function parameter, `string -> Option<seq<byte>>`. The conversion of the decoded bytes into a modulus and an exponent is modelled: a big-endian unsigned value, with the exponent truncated through `int64`.
- **JWT library.** `jwt.ParseWithClaims` is a `ParseOutcome`: parsed claims with the token's validity flag, or a failure marked expired or not-yet-valid, with its message.

In four places the code does something other than one might expect, and the model follows the code:

- The issuer is checked before the six required claims (gha-auth/claims.go:51-53).
- The text after `**/` only has to match a tail of the value, not a whole segment: `refs/**/main` matches `refs/heads/notmain` (gha-auth/matcher.go:42-52; `Matcher.DoubleStarMatchesTail`). A policy author who expects `main` to be a branch name gets more than that.
- A rule with a bad effect is reported under its own name, even when that name is empty (gha-auth/policy.go:181-182).
- The positional name of an unnamed rule without conditions is `string(rune(i))`: one character whose code is the rule's index, not the index in decimal (gha-auth/policy.go:195-198). `Policies.RuneString` models that conversion exactly: truncation to 32 bits, and U+FFFD for negatives, surrogates and values above U+10FFFF.

## Model

| member | source | states |
|---|---|---|
| `Errors.NewValidationError` | gha-auth/errors.go:51-57 | the category and the reason are stored unchanged, and `Unwrap` gives back the category's sentinel |
| `Errors.NewPolicyError` | gha-auth/errors.go:72-78 | the rule name and the reason are stored unchanged, and a PolicyError wraps no sentinel |
| `Errors.CategoryRecoverable` | gha-auth/errors.go:47-49 | `errors.Is(NewValidationError(c, r), t)` holds iff c = t, whatever the reason |
| `Errors.SentinelsDistinct` | gha-auth/errors.go:8-32 | two different categories are never `errors.Is` of each other and have different texts |
| `Errors.NoColonInCategoryText` | gha-auth/errors.go:8-32 | no sentinel text contains the `:` that separates it from a reason |
| `Errors.ValidationMessageUnambiguous` | gha-auth/errors.go:40-45 | the message (`<text>: <reason>`, or `<text>` when the reason is empty) determines both the category and the reason |
| `Errors.PolicyMessageShowsRule` | gha-auth/errors.go:65-70 | a named rule's message never equals an unnamed one, and `policy error: ` is followed by exactly the reason |
| `Text.NatToDecimal` | jwks.go:109 | `%d` gives at least one decimal digit, with no leading zero unless the number is 0 |
| `Text.DecimalRoundTrip` | jwks.go:109 | reading the decimal rendering back gives the number |
| `Matcher.IndexOfSlash` | gha-auth/matcher.go:61-70 | `strings.IndexByte(s, '/')` gives the first `/`, or -1 iff there is none |
| `Matcher.SegmentEnd` | gha-auth/matcher.go:69-74 | `searchEnd` is the value's first `/`, or its end, and no `/` comes before it |
| `Matcher.TrySplits` | gha-auth/matcher.go:47-53 | the backtracking loop answers true iff the rest of the pattern matches the value from some position between its bounds |
| `Matcher.DoubleStarStep` | gha-auth/matcher.go:32-54 | the `**` branch (skip `**`, true at the pattern's end, skip an optional `/`, try every later position) computes `Matches` on the current suffixes |
| `Matcher.StarStep` | gha-auth/matcher.go:56-97 | the `*` branch (empty suffix: jump to the value's next `/`; otherwise try each position up to it) computes `Matches` on the current suffixes |
| `Matcher.MatchInternal` | gha-auth/matcher.go:16-114 | the cursor loop and its backtracking compute `Matches`; every recursive call gets a strictly shorter pattern suffix (`decreases`) |
| `Matcher.Match` | gha-auth/matcher.go:11-13 | `Match` computes `Matches` |
| `Matcher.MatchAny` | gha-auth/matcher.go:117-124 | true iff some pattern of the list matches the value; false for an empty list |
| `Matcher.LiteralPrefix` | gha-auth/matcher.go:106-112 | a wildcard-free head of the pattern must equal the head of the value, and then the rest matches the rest |
| `Matcher.LiteralMatchesIffEqual` | gha-auth/matcher.go:100-112 | a pattern without `*` matches a value iff the two are equal |
| `Matcher.EmptyCases` | gha-auth/matcher.go:99-104 | the empty pattern matches only the empty value; a pattern headed by a literal never matches the empty value, so the test for a remainder of `*`, `**` or nothing can never be true there |
| `Matcher.TrailingDoubleStar` | gha-auth/matcher.go:33-40 | `**` matches every value; `lit + "**"` matches exactly the values starting with `lit` |
| `Matcher.StarMeansSlashFreeRun` | gha-auth/matcher.go:57-97 | `*` followed by a pattern q (q not headed by `*`) matches v iff some slash-free prefix of v can be skipped and q matches the rest |
| `Matcher.StarAlone` | gha-auth/matcher.go:57-88 | `Match("*", v)` iff v contains no `/` |
| `Matcher.DoubleStarSlash` | gha-auth/matcher.go:42-53 | `**/q` matches v iff q matches some suffix of v, so `**/` may stand for zero segments |
| `Matcher.DoubleStarMatchesTail` | gha-auth/matcher.go:42-52 | `lit**/tail` matches `lit`, any text, then `tail`: the text after `**/` need not start a segment |
| `Matcher.ExampleDoubleStarMatchesTail` | gha-auth/matcher.go:42-52 | `refs/**/main` matches `refs/heads/notmain` |
| `Matcher.ExampleZeroSegments` | gha-auth/matcher_test.go:91-96 | `myorg/**/file` matches `myorg/file` |
| `Matcher.StarStaysInSegment` | gha-auth/matcher.go:57-97 | `lit*` never matches `lit` followed by text containing a `/` |
| `Matcher.ExampleStarStopsAtSlash` | gha-auth/matcher_test.go:149-154 | `refs/heads/*` does not match `refs/heads/feature/new-feature` |
| `Matcher.ExampleExtension` | gha-auth/matcher.go:90-96 | `*.yml` matches `ci.yml`: the text after `*` is searched for within the segment |
| `Matcher.ExampleWorkflowFile` | gha-auth/matcher_test.go:59-64 | `/workflows/*.yml` matches `/workflows/ci.yml`: the tail of that table case, used as a step by `ExampleTwoStars` |
| `Matcher.ExampleTwoStars` | gha-auth/matcher_test.go:59-64 | `*/workflows/*.yml` matches `.github/workflows/ci.yml` |
| `Claims.Validate` | gha-auth/claims.go:49-80 | nil iff the issuer is GitHub's and all six required claims are non-empty; a wrong issuer wins over everything else; otherwise the error names the first empty required claim in the fixed order: an InvalidToken ValidationError whose reason is `<claim> claim is required` |
| `Claims.OnlyRequiredClaimsMatter` | gha-auth/claims.go:49-80 | two claim sets with the same issuer and required claims validate alike, so optional claims never matter |
| `Claims.ValidationCategories` | gha-auth/claims.go:51-77 | every failure is exactly one of InvalidIssuer (iff the issuer is wrong) and InvalidToken |
| `Policies.MatchesRule` | gha-auth/policy.go:120-168 | true iff every one of the nine conditions holds: an empty list holds, a non-empty list needs a matching pattern, and the environment list needs a non-empty environment |
| `Policies.RuleMatchesIffListsMatch` | gha-auth/policy.go:120-168 | with an environment present, a rule matches iff each non-empty list has a pattern matching its claim |
| `Policies.AbsentEnvironmentNeverMatches` | gha-auth/policy.go:156-164 | a rule with an environment list never matches claims without an environment, whatever its patterns |
| `Policies.Evaluate` | gha-auth/policy.go:79-117 | the scan returns `Decide`: no policy, else the first matching rule, else the default |
| `Policies.NoPolicyAllows` | gha-auth/policy.go:80-85 | a nil policy allows, with no matched rule and the reason `no policy configured` |
| `Policies.FirstMatchWins` | gha-auth/policy.go:88-102 | the first matching rule decides: allowed iff its effect is exactly `allow`, the matched rule is its name, and the reason is `rule: <name>`, or `default` when it is unnamed |
| `Policies.LaterRulesIgnored` | gha-auth/policy.go:88-103 | appending rules after a matching rule never changes the decision |
| `Policies.NoMatchDefault` | gha-auth/policy.go:105-116 | with no matching rule: allowed iff not default-deny, no matched rule, and the reason names which default applied |
| `Policies.RuneString` | gha-auth/policy.go:195-198 | `string(rune(i))` is one character, whose code is i when i is a Unicode scalar value |
| `Policies.RuleProblem` | gha-auth/policy.go:180-200 | a rule passes iff its effect is `allow` or `deny` and some condition list is non-empty; the effect is checked first, under the rule's name; a missing condition is reported under the name or the positional fallback |
| `Policies.Validate` | gha-auth/policy.go:171-204 | the validation loop returns `PolicyCheck` |
| `Policies.PolicyCheckAcceptsIff` | gha-auth/policy.go:171-204 | validation succeeds iff the policy is nil, or its rules are non-empty and each has a valid effect and a condition |
| `Policies.PolicyCheckReportsFirst` | gha-auth/policy.go:180-200 | a failure is the problem of the first bad rule, and every earlier rule is well formed |
| `Policies.EmptyRulesRejected` | gha-auth/policy.go:176-178 | an empty rule list gives a PolicyError with no rule name and the reason `policy must have at least one rule` |
| `Policies.UnnamedRuleNamedByCodePoint` | gha-auth/policy.go:195-199 | an unnamed conditionless rule at index 1 is reported under the character U+0001, not `"1"` |
| `Jwks.BigEndianRoundTrip` | jwks.go:156-158 | `SetBytes` applied to the shortest big-endian encoding of n gives n, and that encoding has no leading zero |
| `Jwks.LeadingZeroIgnored` | jwks.go:157 | leading zero bytes do not change `SetBytes`'s value |
| `Jwks.BigEndianBound` | jwks.go:157-158 | k bytes give a value below 256^k |
| `Jwks.Int64Of` | jwks.go:163 | `Int64()` gives a value in the int64 range that agrees with the number modulo 2^64 |
| `Jwks.ShortExponentExact` | jwks.go:158-163 | an exponent of at most seven bytes passes through `int(e.Int64())` unchanged |
| `Jwks.ToPublicKey` | jwks.go:143-165 | success iff both n and e decode; a failure on n is reported before e; N is the big-endian value of n's bytes and E the int64 truncation of e's |
| `Jwks.PublishedKeyRoundTrip` | jwks.go:143-165 | a key published in the shortest encoding of section 6.3.1 of RFC 7518 converts back to its modulus and exponent when the exponent is below 2^63 |
| `Jwks.ExponentTruncated` | jwks.go:158-163 | an exponent of 2^64 + 65537 silently becomes 65537 |
| `Jwks.KeyMapDomain` | jwks.go:118-131 | the refreshed map holds exactly the key IDs of entries with kty `RSA` whose parameters decode |
| `Jwks.KeyMapLastWins` | jwks.go:118-131 | each key ID maps to the key built from the last such entry with that ID, so a later duplicate overwrites an earlier one |
| `Jwks.KeyMapIgnoresUnusable` | jwks.go:119-128 | an entry of another key type, or one whose parameters fail to decode, leaves the map as it was |
| `Jwks.FetchKeys` | jwks.go:97-115 | keys come only from a 200 response whose body decodes; every other outcome is a JWKSFetch error, and a non-200 status gives `HTTP <status>` |
| `Jwks.HitIgnoresNetwork` | jwks.go:71-75 | when the key is cached and now − cachedAt < cacheDuration, the cached key is returned, the state is unchanged, and the network is not consulted |
| `Jwks.FailedRefreshKeepsState` | jwks.go:79-81 | a miss whose refresh fails returns a JWKSFetch error and leaves `cache` and `cachedAt` untouched |
| `Jwks.RefreshAnswers` | jwks.go:83-92 | a miss whose refresh succeeds installs the whole new map stamped `now`, then returns the last usable key with that ID, or, when there is none, a KeyNotFound ValidationError whose reason is `key ID "<kid>" not found in JWKS` |
| `Jwks.RepeatedLookupHits` | jwks.go:71-75 | once a key has been returned, asking again before expiry returns the same key and changes nothing |
| `Jwks.ExpiredCacheRefetches` | jwks.go:72-81 | once the cache is as old as the duration, a lookup refetches even a cached key and restamps the cache |
| `Jwks.JWKSFetcher.constructor` | jwks.go:52-66 | an empty URL becomes the default URL and a zero duration becomes one hour; the client has a 10-second timeout and the cache starts empty |
| `Jwks.JWKSFetcher.Refresh` | jwks.go:96-140 | on a fetch failure it returns the error and changes nothing; on success it sets `cache` to `KeyMap` of the keys and `cachedAt` to now |
| `Jwks.JWKSFetcher.GetKey` | jwks.go:69-93 | the new state and the answer are those of `Lookup` on the old state |
| `Jwks.JWKSFetcher.Keyfunc` | jwks.go:168-184 | a non-RSA method (RSA-PSS included) gives InvalidSignature `unexpected signing method: <alg>`, before the kid is read or the cache touched; a missing kid gives InvalidToken; otherwise it is `GetKey` |
| `Verification.LastAudienceWins` | gha-auth/verifier.go:41-44 | options apply in order: the last audience option wins, and without one the audience is empty |
| `Verification.NoPolicyOptionNoPolicy` | gha-auth/verifier.go:34-44 | without a policy option the verifier has no policy |
| `Verification.ParseToken` | gha-auth/verifier.go:104-124 | only a valid parsed token yields its claims; expiry maps to TokenExpired and every other failure to InvalidToken |
| `Verification.Verifier.constructor` | gha-auth/verifier.go:34-39 | defaults: no policy, no audience, GitHub's key-set URL, a one-hour cache and a 10-second client |
| `Verification.Verifier.Apply` | options.go:11-44 | each option sets its one setting |
| `Verification.Verifier.New` | gha-auth/verifier.go:33-60 | fails iff the configured policy fails validation, with that error; otherwise it applies the options in order and creates a fetcher with that URL and cache duration, the configured client and an empty cache |
| `Verification.Verifier.Verify` | gha-auth/verifier.go:63-101 | parse, then claims, then audience (exact membership when an audience is configured), then policy; the first failure is returned; a denial is AccessDenied with the policy's reason; every success is allowed by `Decide` and carries the parsed claims; with no policy, a token that passes the first three steps is accepted |

## Left out

- HTTP, JSON and base64 are inputs, not models: the request, the status line, the JSON decoder and the base64url decoder (jwks.go:97-115, 145-154).
- The JWT library is an input. `jwt.ParseWithClaims` is the `ParseOutcome` input, so signature checking, exp/nbf checking and the library's own call of the claims' `Validate` during parsing are not modelled. For the same reason `Keyfunc` is modelled on the fetcher but is not called from `Verify`.
- RSA cryptography is left out: a key is only its modulus and exponent.
- The `sync.RWMutex` of the fetcher is left out. The model is sequential.
- The `context.Context` arguments are left out, and so is cancellation.
- `WithClock`, `Clock` and `DefaultClock` (options.go:46-63) are left out. The clock they set is never read by the core.
- `VerifyToken` (gha-auth/verifier.go:127-134) is left out. It is only `New` followed by `Verify`.
- Text.Quote: renders `%q` as the name between double quotes. It does not model Go's escaping of quotes, backslashes and non-printable characters.
- Jwks.ToPublicKey: the failure text is `failed to decode N` or `failed to decode E`, without the wrapped base64 error after it. `refresh` discards this text.
- Jwks.JWKSFetcher.Keyfunc: the header's `alg` is a string. Go's `%v` rendering of a missing or non-string `alg` (for example `<nil>`) is not modelled.
- Matcher.MatchInternal: works on characters, while Go works on bytes. `*` and `/` are ASCII and never occur inside a multi-byte UTF-8 sequence, and a split inside a character succeeds only if the split at that character's start also succeeds, so the first success the loops find is always on a character boundary and the results agree on valid UTF-8. Invalid UTF-8 strings are not modelled.
- Jwks.Lookup: `now - cachedAt` is an unbounded integer, while Go's `time.Since` saturates at the int64 limits. The comparison with a cache duration comes out the same for any duration above the int64 minimum.
- The token's audience is a list of strings. The JSON form with one bare string is assumed to be already decoded into a one-element list.
