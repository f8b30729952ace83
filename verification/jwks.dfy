/**
 * The key cache: a fetcher that holds the RSA public keys of a JSON Web Key Set (section 4
 * of RFC 7517), keyed by key ID, together with the time they were fetched. A lookup is
 * answered from the cache while it is fresh; otherwise the whole set is fetched again and the
 * map is swapped. The HTTP request, JSON decoding and base64url decoding are inputs.
 *
 * Times and durations are integers counting nanoseconds; times count from Go's zero time,
 * which is the time a fetcher that has never refreshed holds.
 */
module Jwks {
  import opened Wrappers
  import opened Text
  import opened Errors

  const Second: int := 1_000_000_000
  const DefaultJWKSURL: string := "https://token.actions.githubusercontent.com/.well-known/jwks"
  const DefaultCacheDuration: int := 3600 * Second
  const ZeroTime: int := 0

  /** The part of an HTTP client the fetcher configures: its timeout. */
  datatype HttpClient = HttpClient(timeout: int)
  const DefaultHttpClient: HttpClient := HttpClient(10 * Second)

  type byte = b: int | 0 <= b < 256

  /** A key of the set, as published: every member is a string. */
  datatype JWK = JWK(kid: string, kty: string, alg: string, use: string, n: string, e: string)

  /** An RSA public key: the modulus N and the exponent E (a Go `int`, hence signed). */
  datatype PublicKey = PublicKey(n: nat, e: int)

  /** The decoded body of a 200 response, or the decoder's complaint. */
  datatype Body = Decoded(keys: seq<JWK>) | Malformed(message: string)

  /** What a request for the key set yields: a transport error, or a status and a body. */
  datatype FetchOutcome = RequestFailed(message: string) | Response(status: int, body: Body)

  /** Unpadded base64url decoding (section 5 of RFC 4648); None when the text is not valid. */
  type Base64Decoder = string -> Option<seq<byte>>

  // ----- integer decoding of the RSA parameters (section 6.3.1 of RFC 7518) -----

  /** `big.Int.SetBytes`: the bytes read as an unsigned big-endian number. */
  function BigEndian(bytes: seq<byte>): nat
  {
    if bytes == [] then 0 else BigEndian(bytes[..|bytes| - 1]) * 256 + bytes[|bytes| - 1]
  }

  /** The shortest big-endian encoding of n, with no leading zero byte. */
  function MinimalBytes(n: nat): (bytes: seq<byte>)
    ensures bytes == [] <==> n == 0
  {
    if n == 0 then [] else MinimalBytes(n / 256) + [n % 256]
  }

  /** Reading back the shortest encoding yields the number, which starts with a non-zero byte. */
  lemma {:induction false} BigEndianRoundTrip(n: nat)
    ensures BigEndian(MinimalBytes(n)) == n
    ensures n > 0 ==> MinimalBytes(n)[0] != 0
  {
    if n > 0 {
      BigEndianRoundTrip(n / 256);
      var bytes := MinimalBytes(n);
      assert bytes[..|bytes| - 1] == MinimalBytes(n / 256);
      if n / 256 == 0 {
        assert bytes == [n % 256];
      } else {
        assert bytes[0] == MinimalBytes(n / 256)[0];
      }
    }
  }

  /** Leading zero bytes do not change the value. */
  lemma {:induction false} LeadingZeroIgnored(bytes: seq<byte>)
    ensures BigEndian([0] + bytes) == BigEndian(bytes)
    decreases |bytes|
  {
    if bytes != [] {
      assert ([0] + bytes)[..|bytes|] == [0] + bytes[..|bytes| - 1];
      LeadingZeroIgnored(bytes[..|bytes| - 1]);
    }
  }

  /** 256 to the power k. */
  function Pow256(k: nat): (p: nat)
    ensures p >= 1
  {
    if k == 0 then 1 else 256 * Pow256(k - 1)
  }

  /** k bytes hold a value below 256^k. */
  lemma {:induction false} BigEndianBound(bytes: seq<byte>)
    ensures BigEndian(bytes) < Pow256(|bytes|)
    decreases |bytes|
  {
    if bytes != [] {
      BigEndianBound(bytes[..|bytes| - 1]);
    }
  }

  const Two63: int := 0x8000_0000_0000_0000
  const Two64: int := 0x1_0000_0000_0000_0000

  /** `big.Int.Int64` on a non-negative number: its low 64 bits read as two's complement. */
  function Int64Of(x: nat): (r: int)
    ensures -Two63 <= r < Two63
    ensures (r - x) % Two64 == 0
  {
    var w := x % Two64;
    if w >= Two63 then w - Two64 else w
  }

  /** An exponent of at most seven bytes survives the conversion unchanged. */
  lemma ShortExponentExact(bytes: seq<byte>)
    requires |bytes| <= 7
    ensures Int64Of(BigEndian(bytes)) == BigEndian(bytes)
  {
    BigEndianBound(bytes);
    PowMonotone(|bytes|, 7);
    assert Pow256(7) < Two63;
  }

  lemma {:induction false} PowMonotone(j: nat, k: nat)
    requires j <= k
    ensures Pow256(j) <= Pow256(k)
    decreases k
  {
    if j < k {
      PowMonotone(j, k - 1);
    }
  }

  /** `jwkToPublicKey`: decodes n, then e; a decoding failure is an error. */
  function ToPublicKey(jwk: JWK, decode: Base64Decoder): (r: Result<PublicKey, string>)
    ensures r.Success? <==> decode(jwk.n).Some? && decode(jwk.e).Some?
    ensures decode(jwk.n).None? ==> r == Failure("failed to decode N")
    ensures decode(jwk.n).Some? && decode(jwk.e).None? ==> r == Failure("failed to decode E")
    ensures r.Success? ==> r.value.n == BigEndian(decode(jwk.n).value)
    ensures r.Success? ==> r.value.e == Int64Of(BigEndian(decode(jwk.e).value))
  {
    match decode(jwk.n)
    case None => Failure("failed to decode N")
    case Some(nBytes) =>
      match decode(jwk.e)
      case None => Failure("failed to decode E")
      case Some(eBytes) => Success(PublicKey(BigEndian(nBytes), Int64Of(BigEndian(eBytes))))
  }

  /**
   * A key published as section 6.3.1 of RFC 7518 prescribes (the shortest big-endian
   * encoding of each parameter) converts back to its modulus and exponent, provided the
   * exponent fits in 63 bits.
   */
  lemma PublishedKeyRoundTrip(jwk: JWK, decode: Base64Decoder, n: nat, e: nat)
    requires decode(jwk.n) == Some(MinimalBytes(n))
    requires decode(jwk.e) == Some(MinimalBytes(e))
    requires e < Two63
    ensures ToPublicKey(jwk, decode) == Success(PublicKey(n, e))
  {
    BigEndianRoundTrip(n);
    BigEndianRoundTrip(e);
  }

  /** An exponent at or above 2^64 is silently truncated to its low 64 bits. */
  lemma ExponentTruncated(jwk: JWK, decode: Base64Decoder)
    requires decode(jwk.n).Some?
    requires decode(jwk.e) == Some(MinimalBytes(Two64 + 65537))
    ensures ToPublicKey(jwk, decode).value.e == 65537
  {
    BigEndianRoundTrip(Two64 + 65537);
  }

  // ----- the key map built by a refresh -----

  /** A key enters the cache when its type is RSA and both parameters decode. */
  predicate Usable(jwk: JWK, decode: Base64Decoder)
  {
    jwk.kty == "RSA" && ToPublicKey(jwk, decode).Success?
  }

  /** The map a refresh builds from the keys, in order (a later duplicate kid overwrites). */
  function KeyMap(keys: seq<JWK>, decode: Base64Decoder): map<string, PublicKey>
  {
    if keys == [] then map[]
    else
      var m := KeyMap(keys[..|keys| - 1], decode);
      var jwk := keys[|keys| - 1];
      if Usable(jwk, decode) then m[jwk.kid := ToPublicKey(jwk, decode).value] else m
  }

  /** Entry i of the set would put a key under `kid`. */
  predicate Provides(keys: seq<JWK>, i: int, kid: string, decode: Base64Decoder)
  {
    0 <= i < |keys| && keys[i].kid == kid && Usable(keys[i], decode)
  }

  /** Entry i is the last entry of the set that would put a key under `kid`. */
  predicate LastProvider(keys: seq<JWK>, i: int, kid: string, decode: Base64Decoder)
  {
    Provides(keys, i, kid, decode) && forall l :: i < l < |keys| ==> !Provides(keys, l, kid, decode)
  }

  /** The map holds exactly the key IDs of the usable keys. */
  lemma {:induction false} KeyMapDomain(keys: seq<JWK>, decode: Base64Decoder, kid: string)
    ensures kid in KeyMap(keys, decode) <==> exists i :: Provides(keys, i, kid, decode)
    decreases |keys|
  {
    if keys != [] {
      var prefix := keys[..|keys| - 1];
      var n := |keys| - 1;
      KeyMapDomain(prefix, decode, kid);
      if Provides(keys, n, kid, decode) {
        assert kid in KeyMap(keys, decode);
      } else {
        assert kid in KeyMap(keys, decode) <==> kid in KeyMap(prefix, decode);
        if exists i :: Provides(prefix, i, kid, decode) {
          var i :| Provides(prefix, i, kid, decode);
          assert Provides(keys, i, kid, decode);
        }
        if exists i :: Provides(keys, i, kid, decode) {
          var i :| Provides(keys, i, kid, decode);
          assert Provides(prefix, i, kid, decode);
        }
      }
    }
  }

  /** Each key ID maps to the key built from the LAST usable entry with that key ID. */
  lemma {:induction false} KeyMapLastWins(keys: seq<JWK>, decode: Base64Decoder, kid: string)
    requires kid in KeyMap(keys, decode)
    ensures exists i :: (LastProvider(keys, i, kid, decode)
      && KeyMap(keys, decode)[kid] == ToPublicKey(keys[i], decode).value)
    decreases |keys|
  {
    var prefix := keys[..|keys| - 1];
    var last := keys[|keys| - 1];
    if last.kid == kid && Usable(last, decode) {
      assert LastProvider(keys, |keys| - 1, kid, decode);
    } else {
      assert kid in KeyMap(prefix, decode);
      KeyMapLastWins(prefix, decode, kid);
      var i :| LastProvider(prefix, i, kid, decode)
        && KeyMap(prefix, decode)[kid] == ToPublicKey(prefix[i], decode).value;
      assert keys[i] == prefix[i];
      forall l | i < l < |keys|
        ensures !Provides(keys, l, kid, decode)
      {
        if l < |prefix| {
          assert !Provides(prefix, l, kid, decode);
        }
      }
      assert LastProvider(keys, i, kid, decode);
    }
  }

  /** Keys of any other type, or whose parameters do not decode, never reach the cache. */
  lemma KeyMapIgnoresUnusable(keys: seq<JWK>, bad: JWK, decode: Base64Decoder)
    requires !Usable(bad, decode)
    ensures KeyMap(keys + [bad], decode) == KeyMap(keys, decode)
  {
    assert (keys + [bad])[..|keys|] == keys;
  }

  // ----- fetching -----

  /** The error a refresh reports, in the fetch-failure category, with the given reason. */
  function FetchError(reason: string): (e: Error)
    ensures Is(e, JWKSFetch) && e.ValidationError? && e.reason == reason
  {
    NewValidationError(JWKSFetch, reason)
  }

  /**
   * The keys a request yields: only a 200 response whose body decodes gives keys; a transport
   * error, another status or a malformed body is a fetch failure.
   */
  function FetchKeys(fetched: FetchOutcome): (r: Result<seq<JWK>, Error>)
    ensures r.Success? <==> fetched.Response? && fetched.status == 200 && fetched.body.Decoded?
    ensures r.Success? ==> r.value == fetched.body.keys
    ensures r.Failure? ==> Is(r.error, JWKSFetch)
    ensures fetched.Response? && fetched.status != 200 ==>
      r == Failure(FetchError("HTTP " + IntToDecimal(fetched.status)))
  {
    match fetched
    case RequestFailed(message) => Failure(FetchError(message))
    case Response(status, body) =>
      if status != 200 then Failure(FetchError("HTTP " + IntToDecimal(status)))
      else match body
        case Malformed(message) => Failure(FetchError(message))
        case Decoded(keys) => Success(keys)
  }

  /** The error for a key ID missing from a freshly fetched set. */
  function KeyNotFoundError(kid: string): (e: Error)
    ensures Is(e, KeyNotFound) && e.ValidationError? && e.reason == "key ID " + Quote(kid) + " not found in JWKS"
  {
    NewValidationError(KeyNotFound, "key ID " + Quote(kid) + " not found in JWKS")
  }

  // ----- the cache as a state machine -----

  /** The cache state: the key map and the time it was fetched. */
  datatype CacheState = CacheState(cache: map<string, PublicKey>, cachedAt: int)

  /** A lookup is a hit when the key is cached and the cache is younger than the duration. */
  predicate IsHit(s: CacheState, kid: string, now: int, cacheDuration: int)
  {
    kid in s.cache && now - s.cachedAt < cacheDuration
  }

  /** `GetKey` as a transition: the new state and the answer. */
  function Lookup(s: CacheState, kid: string, now: int, cacheDuration: int,
                  fetched: FetchOutcome, decode: Base64Decoder): (CacheState, Result<PublicKey, Error>)
  {
    if IsHit(s, kid, now, cacheDuration) then (s, Success(s.cache[kid]))
    else match FetchKeys(fetched)
      case Failure(e) => (s, Failure(e))
      case Success(keys) =>
        var m := KeyMap(keys, decode);
        (CacheState(m, now), if kid in m then Success(m[kid]) else Failure(KeyNotFoundError(kid)))
  }

  /** A hit answers from the cache, whatever the network would say, and changes nothing. */
  lemma HitIgnoresNetwork(s: CacheState, kid: string, now: int, d: int,
                          f1: FetchOutcome, f2: FetchOutcome, decode: Base64Decoder)
    requires IsHit(s, kid, now, d)
    ensures Lookup(s, kid, now, d, f1, decode) == Lookup(s, kid, now, d, f2, decode)
    ensures Lookup(s, kid, now, d, f1, decode) == (s, Success(s.cache[kid]))
  {
  }

  /** A miss whose refresh fails reports a fetch error and leaves the state untouched. */
  lemma FailedRefreshKeepsState(s: CacheState, kid: string, now: int, d: int,
                                fetched: FetchOutcome, decode: Base64Decoder)
    requires !IsHit(s, kid, now, d) && FetchKeys(fetched).Failure?
    ensures Lookup(s, kid, now, d, fetched, decode).0 == s
    ensures Lookup(s, kid, now, d, fetched, decode).1.Failure?
    ensures Is(Lookup(s, kid, now, d, fetched, decode).1.error, JWKSFetch)
  {
  }

  /**
   * A miss whose refresh succeeds swaps in the whole new map, stamps it with `now`, and then
   * answers with the last usable key of that ID in the set, or KeyNotFound.
   */
  lemma RefreshAnswers(s: CacheState, kid: string, now: int, d: int,
                       fetched: FetchOutcome, decode: Base64Decoder)
    requires !IsHit(s, kid, now, d) && FetchKeys(fetched).Success?
    ensures var keys := FetchKeys(fetched).value;
      Lookup(s, kid, now, d, fetched, decode).0 == CacheState(KeyMap(keys, decode), now)
    ensures var keys := FetchKeys(fetched).value;
      var r := Lookup(s, kid, now, d, fetched, decode).1;
      (r.Success? <==> exists i :: Provides(keys, i, kid, decode))
      && (r.Success? ==> exists i :: (LastProvider(keys, i, kid, decode)
            && r.value == ToPublicKey(keys[i], decode).value))
      && (r.Failure? ==> (Is(r.error, KeyNotFound) && r.error.ValidationError?
            && r.error.reason == "key ID " + Quote(kid) + " not found in JWKS"))
  {
    var keys := FetchKeys(fetched).value;
    KeyMapDomain(keys, decode, kid);
    if kid in KeyMap(keys, decode) {
      KeyMapLastWins(keys, decode, kid);
    }
  }

  /**
   * Repeated lookups: once a key has been returned, asking again for it before the cache
   * expires returns the same key and changes nothing, whatever the network would say.
   */
  lemma RepeatedLookupHits(s0: CacheState, kid: string, t1: int, t2: int, d: int,
                           f1: FetchOutcome, f2: FetchOutcome, decode: Base64Decoder)
    requires Lookup(s0, kid, t1, d, f1, decode).1.Success?
    requires t2 - Lookup(s0, kid, t1, d, f1, decode).0.cachedAt < d
    ensures var (s1, r1) := Lookup(s0, kid, t1, d, f1, decode);
      Lookup(s1, kid, t2, d, f2, decode) == (s1, r1)
  {
  }

  /** Once the cache has expired, every lookup goes to the network, even for a cached key. */
  lemma ExpiredCacheRefetches(s: CacheState, kid: string, now: int, d: int,
                              fetched: FetchOutcome, decode: Base64Decoder)
    requires now - s.cachedAt >= d && FetchKeys(fetched).Success?
    ensures Lookup(s, kid, now, d, fetched, decode).0.cachedAt == now
    ensures Lookup(s, kid, now, d, fetched, decode).0.cache == KeyMap(FetchKeys(fetched).value, decode)
  {
  }

  // ----- the fetcher object -----

  /** The family of the token's signing method, as the JWT library's method types sort it. */
  datatype SigningMethod = RSA | RSAPSS | ECDSA | EdDSA | HMAC | Unsigned

  /** The parts of a token header the key function reads. */
  datatype TokenHeader = TokenHeader(signing: SigningMethod, alg: string, kid: Option<string>)

  class JWKSFetcher {
    const url: string
    var httpClient: HttpClient
    const cacheDuration: int
    var cache: map<string, PublicKey>
    var cachedAt: int

    /** The cache state, as a value. */
    function State(): CacheState
      reads this
    {
      CacheState(cache, cachedAt)
    }

    /** `NewJWKSFetcher`: "" means the default URL, 0 the default duration; the cache is empty. */
    constructor (url: string, cacheDuration: int)
      ensures this.url == if url == "" then DefaultJWKSURL else url
      ensures this.cacheDuration == if cacheDuration == 0 then DefaultCacheDuration else cacheDuration
      ensures httpClient == DefaultHttpClient
      ensures cache == map[] && cachedAt == ZeroTime
    {
      this.url := if url == "" then DefaultJWKSURL else url;
      this.cacheDuration := if cacheDuration == 0 then DefaultCacheDuration else cacheDuration;
      httpClient := HttpClient(10 * Second);
      cache := map[];
      cachedAt := ZeroTime;
    }

    /**
     * `refresh`: fetches the set and, on success, replaces the whole map with the usable keys
     * and stamps it with `now`; on failure nothing changes.
     */
    method Refresh(now: int, fetched: FetchOutcome, decode: Base64Decoder) returns (err: Option<Error>)
      modifies this`cache, this`cachedAt
      ensures FetchKeys(fetched).Failure? ==>
        err == Some(FetchKeys(fetched).error) && cache == old(cache) && cachedAt == old(cachedAt)
      ensures FetchKeys(fetched).Success? ==>
        err == None && cache == KeyMap(FetchKeys(fetched).value, decode) && cachedAt == now
    {
      if fetched.RequestFailed? {
        return Some(NewValidationError(JWKSFetch, fetched.message));
      }
      if fetched.status != 200 {
        return Some(NewValidationError(JWKSFetch, "HTTP " + IntToDecimal(fetched.status)));
      }
      if fetched.body.Malformed? {
        return Some(NewValidationError(JWKSFetch, fetched.body.message));
      }
      var keys := fetched.body.keys;
      var newCache: map<string, PublicKey> := map[];
      for i := 0 to |keys|
        invariant newCache == KeyMap(keys[..i], decode)
      {
        var jwk := keys[i];
        assert keys[..i + 1][..i] == keys[..i];
        if jwk.kty != "RSA" {
          continue;
        }
        var key := ToPublicKey(jwk, decode);
        if key.Failure? {
          continue;
        }
        newCache := newCache[jwk.kid := key.value];
      }
      assert keys[..|keys|] == keys;
      cache := newCache;
      cachedAt := now;
      return None;
    }

    /** `GetKey`: a fresh cached key, else a refresh and a second look in the new map. */
    method GetKey(kid: string, now: int, fetched: FetchOutcome, decode: Base64Decoder)
      returns (r: Result<PublicKey, Error>)
      modifies this`cache, this`cachedAt
      ensures (State(), r) == Lookup(old(State()), kid, now, cacheDuration, fetched, decode)
    {
      if kid in cache && now - cachedAt < cacheDuration {
        return Success(cache[kid]);
      }
      var err := Refresh(now, fetched, decode);
      if err.Some? {
        return Failure(err.value);
      }
      if kid !in cache {
        return Failure(NewValidationError(KeyNotFound, "key ID " + Quote(kid) + " not found in JWKS"));
      }
      return Success(cache[kid]);
    }

    /**
     * `Keyfunc`: only the RSA PKCS #1 v1.5 methods pass the signing-method gate, before the
     * key ID is read or the cache touched; a token without a string kid is invalid.
     */
    method Keyfunc(header: TokenHeader, now: int, fetched: FetchOutcome, decode: Base64Decoder)
      returns (r: Result<PublicKey, Error>)
      modifies this`cache, this`cachedAt
      ensures header.signing != RSA ==>
        r == Failure(ValidationError(InvalidSignature, "unexpected signing method: " + header.alg))
        && State() == old(State())
      ensures header.signing == RSA && header.kid.None? ==>
        r == Failure(ValidationError(InvalidToken, "missing kid in token header"))
        && State() == old(State())
      ensures header.signing == RSA && header.kid.Some? ==>
        (State(), r) == Lookup(old(State()), header.kid.value, now, cacheDuration, fetched, decode)
      ensures r.Success? ==> header.signing == RSA && header.kid.Some?
    {
      if header.signing != RSA {
        return Failure(NewValidationError(InvalidSignature, "unexpected signing method: " + header.alg));
      }
      if header.kid.None? {
        return Failure(NewValidationError(InvalidToken, "missing kid in token header"));
      }
      r := GetKey(header.kid.value, now, fetched, decode);
    }
  }
}
