/** Tokens: splitting a compact JWS (section 5.2 of RFC 7515), checking its
    signature and deciding on its claims (idp/oidc.go, idp/jwt_verify.go). */
module Jws {
  import opened Wrappers
  import opened Strings
  import opened Base64
  import opened Jwks

  datatype Header = Header(kid: string, alg: string)

  datatype Json = JString(s: string) | JNumber(r: real) | JArray(items: seq<Json>) | JOther

  datatype Claims = Claims(iss: Json, aud: Json, exp: Json, sub: Json, email: Json)

  /** The libraries behind a token: JSON parsing and the RSA check of SHA-256. */
  datatype Library = Library(
    parseHeader: Bytes -> Option<Header>,
    parseClaims: Bytes -> Option<Claims>,
    verifies: (Key, string, Bytes) -> bool)

  datatype Config = Config(issuer: string, audience: string, ttl: int)

  datatype Accepted = Accepted(subject: string, issuer: string, email: string, claims: Claims)

  // ----- the payload that was signed -----

  /** Everything after the first dot, or nothing. */
  function PayloadPart(signingInput: string): string {
    var i := IndexOf(signingInput, '.');
    if i == |signingInput| then "" else signingInput[i + 1..]
  }

  /** stringsSplitPayload. */
  method SplitPayload(signingInput: string) returns (payload: string)
    ensures payload == PayloadPart(signingInput)
  {
    for i := 0 to |signingInput|
      invariant '.' !in signingInput[..i]
    {
      if signingInput[i] == '.' {
        IndexOfUnique(signingInput, '.', i);
        return signingInput[i + 1..];
      }
    }
    IndexOfUnique(signingInput, '.', |signingInput|);
    return "";
  }

  lemma JoinThree(p: string, q: string, r: string)
    ensures Join([p, q, r], '.') == p + "." + q + "." + r
  {
    assert [p, q, r][1..] == [q, r] && [q, r][1..] == [r];
    assert Join([q, r], '.') == q + "." + r;
    assert p + "." + (q + "." + r) == p + "." + q + "." + r;
  }

  lemma MiddlePart(p: string, q: string)
    requires '.' !in p
    ensures PayloadPart(p + "." + q) == q
  {
    var input := p + "." + q;
    assert input[..|p|] == p && input[|p| + 1..] == q;
    IndexOfUnique(input, '.', |p|);
  }

  /** For every token that splits into three parts, the text that is checked
      against the signature is the token's own beginning, and the text decoded
      as payload is exactly the middle part of that text. */
  lemma PayloadIsWhatWasSigned(token: string)
    requires |Split(token, '.')| == 3
    ensures var p := Split(token, '.');
            && token == (p[0] + "." + p[1]) + "." + p[2]
            && PayloadPart(p[0] + "." + p[1]) == p[1]
            && '.' !in p[0] && '.' !in p[1] && '.' !in p[2]
  {
    SplitParts(token, '.');
    var p := Split(token, '.');
    assert p[0] in p && p[1] in p && p[2] in p;
    assert p == [p[0], p[1], p[2]];
    JoinThree(p[0], p[1], p[2]);
    MiddlePart(p[0], p[1]);
  }

  function VerifyRs256(lib: Library, signingInput: string, sig: string, key: Key): Option<Bytes> {
    match Decode(RAW_URL, sig)
    case None => None
    case Some(s) =>
      if !lib.verifies(key, signingInput, s) then None else Decode(RAW_URL, PayloadPart(signingInput))
  }

  // ----- the header -----

  /** The key id of a well-formed RS256 token. */
  function KidOf(lib: Library, token: string): Option<string> {
    var parts := Split(token, '.');
    if |parts| != 3 then None
    else
      match Decode(RAW_URL, parts[0])
      case None => None
      case Some(b) =>
        match lib.parseHeader(b)
        case None => None
        case Some(h) => if h.alg == "RS256" then Some(h.kid) else None
  }

  /** A token has a key id exactly when it has three dot-free parts, the first of
      which decodes to a header of an RS256 token; the id is the header's. */
  lemma KidMeaning(lib: Library, token: string, kid: string)
    ensures KidOf(lib, token) == Some(kid) <==>
            exists p: string, q: string, r: string ::
              '.' !in p && '.' !in q && '.' !in r && token == p + "." + q + "." + r && HasHeader(lib, p, kid)
  {
    var parts := Split(token, '.');
    if |parts| == 3 {
      PayloadIsWhatWasSigned(token);
      assert token == parts[0] + "." + parts[1] + "." + parts[2];
    }
    forall p: string, q: string, r: string | '.' !in p && '.' !in q && '.' !in r && token == p + "." + q + "." + r
      ensures parts == [p, q, r]
    {
      JoinThree(p, q, r);
      SplitJoin([p, q, r], '.');
    }
  }

  ghost predicate HasHeader(lib: Library, p: string, kid: string) {
    exists b: Bytes :: Decode(RAW_URL, p) == Some(b) && lib.parseHeader(b) == Some(Header(kid, "RS256"))
  }

  // ----- the claims -----

  function AsString(j: Json): string {
    if j.JString? then j.s else ""
  }

  predicate AudienceOk(aud: Json, want: string) {
    match aud
    case JString(s) => s == want
    case JArray(items) => exists i | 0 <= i < |items| :: items[i] == JString(want)
    case _ => false
  }

  /** The claim is the wanted audience or a list that has it. */
  predicate Names(aud: Json, want: string) {
    aud == JString(want) || (aud.JArray? && JString(want) in aud.items)
  }

  lemma AudienceMeaning(aud: Json, want: string)
    ensures AudienceOk(aud, want) <==> Names(aud, want)
  {}

  /** int64(n) of a number within range: the fraction is cut towards zero. */
  function Truncate(r: real): int {
    if r >= 0.0 then r.Floor else -((-r).Floor)
  }

  /** The whole number next to r on the side of zero. */
  lemma TruncateMeaning(r: real)
    ensures r >= 0.0 ==> 0 <= Truncate(r) && Truncate(r) as real <= r < (Truncate(r) + 1) as real
    ensures r <= 0.0 ==> Truncate(r) <= 0 && (Truncate(r) - 1) as real < r <= Truncate(r) as real
  {}

  const NANOS := 1_000_000_000

  /** The expiry in nanoseconds, when the claim is a number. */
  function NumericTime(exp: Json): Option<int> {
    if exp.JNumber? then Some(Truncate(exp.r) * NANOS) else None
  }

  /** What Validate does once it has a key. */
  function Verdict(lib: Library, cfg: Config, token: string, key: Key, now: int): Option<Accepted> {
    var parts := Split(token, '.');
    if |parts| != 3 then None
    else
      match VerifyRs256(lib, parts[0] + "." + parts[1], parts[2], key)
      case None => None
      case Some(payload) =>
        match lib.parseClaims(payload)
        case None => None
        case Some(c) =>
          if TrimRightSlashes(AsString(c.iss)) != cfg.issuer then None
          else if cfg.audience != "" && !AudienceOk(c.aud, cfg.audience) then None
          else
            var exp := NumericTime(c.exp);
            if exp.Some? && now > exp.value then None
            else Some(Accepted(AsString(c.sub), AsString(c.iss), AsString(c.email), c))
  }

  /** What an accepted token is reported as is what its claims say; a claim that
      is not text is reported as empty. */
  predicate Reports(a: Accepted) {
    && a.issuer == (if a.claims.iss.JString? then a.claims.iss.s else "")
    && a.subject == (if a.claims.sub.JString? then a.claims.sub.s else "")
    && a.email == (if a.claims.email.JString? then a.claims.email.s else "")
  }

  /** The three parts of a token whose signature covers the first two and
      whose middle part decodes to the payload. */
  ghost predicate SignedParts(lib: Library, key: Key, p: string, q: string, r: string, payload: Bytes) {
    && '.' !in p && '.' !in q && '.' !in r
    && Decode(RAW_URL, r).Some? && lib.verifies(key, p + "." + q, Decode(RAW_URL, r).value)
    && Decode(RAW_URL, q) == Some(payload)
  }

  ghost predicate SignedPayload(lib: Library, token: string, key: Key, payload: Bytes) {
    exists p: string, q: string, r: string ::
      SignedParts(lib, key, p, q, r, payload) && token == p + "." + q + "." + r
  }

  /** A token is accepted exactly when its middle part, covered by a signature
      that verifies, decodes to claims of the configured issuer and audience
      that have not expired; an expiry that is not a number is no expiry. */
  lemma AcceptedIff(lib: Library, cfg: Config, token: string, key: Key, now: int)
    ensures Verdict(lib, cfg, token, key, now).Some? <==>
            exists payload: Bytes ::
              && SignedPayload(lib, token, key, payload)
              && lib.parseClaims(payload).Some?
              && var c := lib.parseClaims(payload).value;
                 && TrimRightSlashes(AsString(c.iss)) == cfg.issuer
                 && (cfg.audience == "" || Names(c.aud, cfg.audience))
                 && (c.exp.JNumber? ==> now <= Truncate(c.exp.r) * 1_000_000_000)
    ensures var v := Verdict(lib, cfg, token, key, now);
            v.Some? ==>
              && (exists payload :: SignedPayload(lib, token, key, payload)
                                    && lib.parseClaims(payload) == Some(v.value.claims))
              && Reports(v.value)
  {
    var parts := Split(token, '.');
    forall c: Claims ensures AudienceOk(c.aud, cfg.audience) <==> Names(c.aud, cfg.audience) {
      AudienceMeaning(c.aud, cfg.audience);
    }
    if |parts| == 3 {
      PayloadIsWhatWasSigned(token);
      var v := VerifyRs256(lib, parts[0] + "." + parts[1], parts[2], key);
      if v.Some? {
        assert SignedParts(lib, key, parts[0], parts[1], parts[2], v.value);
        assert token == parts[0] + "." + parts[1] + "." + parts[2];
        assert SignedPayload(lib, token, key, v.value);
      }
    }
    forall payload: Bytes | SignedPayload(lib, token, key, payload)
      ensures |parts| == 3 && VerifyRs256(lib, parts[0] + "." + parts[1], parts[2], key) == Some(payload)
    {
      SignedPayloadUnique(lib, token, key, payload);
    }
  }

  lemma SignedPayloadUnique(lib: Library, token: string, key: Key, payload: Bytes)
    requires SignedPayload(lib, token, key, payload)
    ensures var p := Split(token, '.');
            |p| == 3 && VerifyRs256(lib, p[0] + "." + p[1], p[2], key) == Some(payload)
  {
    var p: string, q: string, r: string :|
      SignedParts(lib, key, p, q, r, payload) && token == p + "." + q + "." + r;
    JoinThree(p, q, r);
    SplitJoin([p, q, r], '.');
    MiddlePart(p, q);
  }
}
