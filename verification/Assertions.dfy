// The server assertion: fingerprints of an SDP, the detached JWS over them (Appendix F of RFC 7515),
// the self-signed token, and their verification. JSON and ECDSA are abstract, with their laws.
module Assertions {
  import opened Basics
  import opened Lines
  import opened Identity
  import opened Numerals
  import B = Base64Url
  import U = Utf8

  // ---- fingerprints ----

  datatype Fingerprint = Fingerprint(algorithm: string, digest: string)

  function FirstOf(c: char, s: string): (k: nat)
    ensures k <= |s|
    ensures k < |s| ==> s[k] == c
    ensures forall i :: 0 <= i < k ==> s[i] != c
  {
    if s == "" || s[0] == c then 0 else 1 + FirstOf(c, s[1..])
  }

  // "a=fingerprint:<algorithm> <digest>"
  function FingerprintOf(text: string): Fingerprint
    requires IsFingerprint(text)
  {
    var rest := text[|FINGERPRINT|..];
    var k := FirstOf(' ', rest);
    Fingerprint(rest[..k], if k < |rest| then rest[k + 1..] else "")
  }

  function Parsed(texts: seq<string>): seq<Fingerprint>
    requires forall text :: text in texts ==> IsFingerprint(text)
  {
    seq(|texts|, i requires 0 <= i < |texts| => FingerprintOf(texts[i]))
  }

  lemma {:induction false} PickedSatisfy(lines: seq<string>, p: string -> bool)
    ensures forall text :: text in Picked(lines, p) ==> p(text)
  {
    if lines != [] {
      PickedSatisfy(lines[1..], p);
    }
  }

  function Fingerprints(sdp: string): seq<Fingerprint> {
    PickedSatisfy(SplitLines(sdp), IsFingerprint);
    Parsed(Picked(SplitLines(sdp), IsFingerprint))
  }

  lemma PickedTurn(lines: seq<string>, i: nat, p: string -> bool)
    requires i < |lines|
    ensures Picked(lines[..i + 1], p) == Picked(lines[..i], p) + if p(Strip(lines[i])) then [Strip(lines[i])] else []
  {
    assert lines[..i + 1] == lines[..i] + [lines[i]];
    FilterConcat(lines[..i], [lines[i]], p);
    assert [lines[i]][1..] == [];
  }

  method FingerprintEntries(sdp: string) returns (entries: seq<Fingerprint>)
    ensures entries == Fingerprints(sdp)
  {
    entries := [];
    var lines := SplitLines(sdp);
    ghost var texts: seq<string> := [];
    for i := 0 to |lines|
      invariant texts == Picked(lines[..i], IsFingerprint)
      invariant (forall text :: text in texts ==> IsFingerprint(text)) && entries == Parsed(texts)
    {
      var stripped := Strip(lines[i]);
      PickedTurn(lines, i, IsFingerprint);
      if FINGERPRINT <= stripped {
        entries := entries + [FingerprintOf(stripped)];
        texts := texts + [stripped];
      }
    }
    assert lines[..|lines|] == lines;
  }

  lemma Disjoint(text: string)
    ensures !(IsIdentity(text) && IsFingerprint(text))
  {
    if IsIdentity(text) {
      assert text[2] == IDENTITY[2] == 'i' && FINGERPRINT[2] == 'f';
    }
  }

  // Taking identity lines out changes no fingerprint, even where it joins a "\r" to a "\n".
  lemma FingerprintsSurviveStrip(sdp: string)
    ensures Fingerprints(StripIdentity(sdp)) == Fingerprints(sdp)
  {
    var lines := SplitLines(sdp);
    JoinSplit(sdp);
    WithoutShape(lines, IsIdentity);
    PickedOfJoin(Without(lines, IsIdentity), IsFingerprint);
    forall text ensures !(IsIdentity(text) && IsFingerprint(text)) {
      Disjoint(text);
    }
    PickedWithout(lines, IsIdentity, IsFingerprint);
  }

  // ---- signatures ----

  datatype Algorithm = ES256 | ES384 | ES512

  // Bytes of one coordinate (section 3.4 of RFC 7518).
  function Size(alg: Algorithm): nat {
    match alg
    case ES256 => 32
    case ES384 => 48
    case ES512 => 66
  }

  // The curves P-256, P-384 and P-521.
  function FieldBits(alg: Algorithm): nat {
    match alg
    case ES256 => 256
    case ES384 => 384
    case ES512 => 521
  }

  // A coordinate has as many bytes as its field needs, and no more.
  lemma SizeIsTight(alg: Algorithm)
    ensures 8 * (Size(alg) - 1) < FieldBits(alg) <= 8 * Size(alg)
  {
  }

  // Keys with their ECDSA, and the JSON headers and payload.
  datatype Jose<!K, !P> = Jose(
    algorithm: K -> Algorithm, public: K -> P,
    ecdsaSign: (K, bytes) -> (nat, nat), ecdsaVerify: (P, Algorithm, bytes, nat, nat) -> bool,
    header: Algorithm -> bytes, tokenHeader: Algorithm -> bytes, headerAlgorithm: bytes -> Option<Algorithm>,
    payload: seq<Fingerprint> -> bytes)

  ghost predicate Lawful<K(!new), P(!new)>(j: Jose<K, P>) {
    && (forall k, data ::
          var sig := j.ecdsaSign(k, data);
          var alg := j.algorithm(k);
          && sig.0 < Pow256(Size(alg)) && sig.1 < Pow256(Size(alg))
          && j.ecdsaVerify(j.public(k), alg, data, sig.0, sig.1))
    && (forall alg :: j.headerAlgorithm(j.header(alg)) == Some(alg))
    && (forall alg :: j.headerAlgorithm(j.tokenHeader(alg)) == Some(alg))
  }

  function SignRaw<K, P>(j: Jose<K, P>, k: K, data: bytes): bytes {
    var sig := j.ecdsaSign(k, data);
    BigEndian(Size(j.algorithm(k)), sig.0) + BigEndian(Size(j.algorithm(k)), sig.1)
  }

  predicate VerifyRaw<K, P>(j: Jose<K, P>, key: P, alg: Algorithm, data: bytes, signature: bytes) {
    var n := Size(alg);
    |signature| == 2 * n
    && j.ecdsaVerify(key, alg, data, FromBigEndian(signature[..n]), FromBigEndian(signature[n..]))
  }

  // The fixed-width form loses nothing: checking it is checking the signature that was made.
  lemma RawIsExact<K(!new), P(!new)>(j: Jose<K, P>, k: K, data: bytes, key: P, other: bytes)
    requires Lawful(j)
    ensures var sig := j.ecdsaSign(k, data);
            VerifyRaw(j, key, j.algorithm(k), other, SignRaw(j, k, data))
            <==> j.ecdsaVerify(key, j.algorithm(k), other, sig.0, sig.1)
  {
    var sig, n := j.ecdsaSign(k, data), Size(j.algorithm(k));
    BigEndianRoundTrip(n, sig.0);
    BigEndianRoundTrip(n, sig.1);
    var raw := SignRaw(j, k, data);
    assert raw[..n] == BigEndian(n, sig.0) && raw[n..] == BigEndian(n, sig.1);
  }

  // ---- compact serialization ----

  function SplitDots(s: string): seq<string>
    decreases |s|
  {
    var k := FirstOf('.', s);
    if k == |s| then [s] else [s[..k]] + SplitDots(s[k + 1..])
  }

  lemma FirstIs(c: char, a: string, rest: string)
    requires forall i :: 0 <= i < |a| ==> a[i] != c
    ensures FirstOf(c, a + [c] + rest) == |a| && FirstOf(c, a) == |a|
  {
    var s := a + [c] + rest;
    assert s[|a|] == c;
    assert forall i :: 0 <= i < |a| ==> s[i] == a[i];
  }

  predicate NoDots(s: string) { forall i :: 0 <= i < |s| ==> s[i] != '.' }

  lemma SplitDotsAt(a: string, rest: string)
    requires NoDots(a)
    ensures SplitDots(a + "." + rest) == [a] + SplitDots(rest) && SplitDots(a) == [a]
  {
    FirstIs('.', a, rest);
    assert (a + "." + rest)[..|a|] == a && (a + "." + rest)[|a| + 1..] == rest;
  }

  lemma SplitThree(a: string, b: string, c: string)
    requires NoDots(a) && NoDots(b) && NoDots(c)
    ensures SplitDots(a + "." + (b + "." + c)) == [a, b, c]
  {
    SplitDotsAt(a, b + "." + c);
    SplitDotsAt(b, c);
    SplitDotsAt(c, "");
  }

  lemma FirstPart(s: string) returns (rest: string)
    ensures SplitDots(s) != [] && NoDots(SplitDots(s)[0])
    ensures if |SplitDots(s)| == 1 then s == SplitDots(s)[0]
            else s == SplitDots(s)[0] + "." + rest && SplitDots(rest) == SplitDots(s)[1..]
  {
    var k := FirstOf('.', s);
    rest := "";
    if k < |s| {
      rest := s[k + 1..];
      assert s == s[..k] + "." + rest;
      assert SplitDots(s) == [s[..k]] + SplitDots(rest);
    }
  }

  // Three parts are three texts without a dot, joined by dots.
  lemma ThreeParts(s: string)
    requires |SplitDots(s)| == 3
    ensures var parts := SplitDots(s);
            && NoDots(parts[0]) && NoDots(parts[1]) && NoDots(parts[2])
            && s == parts[0] + "." + (parts[1] + "." + parts[2])
  {
    var rest := FirstPart(s);
    var last := FirstPart(rest);
    var none := FirstPart(last);
  }

  lemma SplitClean(a: string, b: string, c: string)
    requires B.Clean(a) && B.Clean(b) && B.Clean(c)
    ensures SplitDots(a + "." + (b + "." + c)) == [a, b, c]
  {
    assert NoDots(a) && NoDots(b) && NoDots(c);
    SplitThree(a, b, c);
  }

  // ---- the detached fingerprints JWS ----

  function SigningInput<K, P>(j: Jose<K, P>, header: string, sdp: string): bytes {
    U.Encode(header + "." + B.Encode(j.payload(Fingerprints(sdp))))
  }

  function SignFingerprints<K, P>(j: Jose<K, P>, sdp: string, k: K): string {
    var header := B.Encode(j.header(j.algorithm(k)));
    header + "." + ("." + B.Encode(SignRaw(j, k, SigningInput(j, header, sdp))))
  }

  // False wherever the code raises InvalidIdentity.
  predicate VerifyFingerprints<K, P>(j: Jose<K, P>, sdp: string, jws: string, key: P) {
    var parts := SplitDots(jws);
    |parts| == 3 && parts[1] == "" &&
    match B.Decode(parts[0])
    case None => false
    case Some(header) =>
      match j.headerAlgorithm(header)
      case None => false
      case Some(alg) =>
        match B.Decode(parts[2])
        case None => false
        case Some(signature) => VerifyRaw(j, key, alg, SigningInput(j, parts[0], sdp), signature)
  }

  lemma DetachedParts(a: string, c: string)
    requires B.Clean(a) && B.Clean(c)
    ensures SplitDots(a + "." + ("." + c)) == [a, "", c]
  {
    SplitClean(a, "", c);
    assert "" + "." + c == "." + c;
  }

  // A JWS made for one SDP verifies for another exactly when ECDSA accepts that signature for
  // the other's fingerprints: header, encodings and the fixed-width form lose nothing.
  lemma VerifyIsEcdsa<K(!new), P(!new)>(j: Jose<K, P>, sdp: string, other: string, k: K, key: P)
    requires Lawful(j)
    ensures var alg := j.algorithm(k);
            var header := B.Encode(j.header(alg));
            var sig := j.ecdsaSign(k, SigningInput(j, header, sdp));
            VerifyFingerprints(j, other, SignFingerprints(j, sdp, k), key)
            <==> j.ecdsaVerify(key, alg, SigningInput(j, header, other), sig.0, sig.1)
  {
    var alg := j.algorithm(k);
    var header := B.Encode(j.header(alg));
    var input := SigningInput(j, header, sdp);
    B.DecodeEncode(j.header(alg));
    B.DecodeEncode(SignRaw(j, k, input));
    DetachedParts(header, B.Encode(SignRaw(j, k, input)));
    RawIsExact(j, k, input, key, SigningInput(j, header, other));
  }

  // The signature of an SDP verifies on the SDP as it is after the identity was inserted and
  // taken out again.
  lemma SignThenVerify<K(!new), P(!new)>(j: Jose<K, P>, sdp: string, envelope: string, k: K)
    requires Lawful(j) && OneLine(envelope) && Placeable(sdp)
    ensures VerifyFingerprints(j, StripIdentity(Insert(sdp, envelope)), SignFingerprints(j, sdp, k), j.public(k))
  {
    StripInserted(sdp, envelope);
    FingerprintsSurviveStrip(sdp);
    VerifyIsEcdsa(j, sdp, StripIdentity(Insert(sdp, envelope)), k, j.public(k));
  }

  // ---- the server identity ----

  datatype Envelope = Envelope(domain: string, protocol: string, token: string, fingerprints: string)

  // The envelope's base64 JSON, and what the token's claims say: the key they carry, and
  // whether they have expired.
  datatype Claims<!P> = Claims(
    build: (string, string, string) -> string, parse: string -> Option<Envelope>,
    key: bytes -> Option<P>, expired: bytes -> bool)

  ghost predicate Readable<P>(c: Claims<P>) {
    forall domain, token, fingerprints ::
      var value := c.build(domain, token, fingerprints);
      OneLine(value) && c.parse(value) == Some(Envelope(domain, "default", token, fingerprints))
  }

  function TokenInput(header: string, claims: string): bytes { U.Encode(header + "." + claims) }

  function SignToken<K, P>(j: Jose<K, P>, claims: bytes, k: K): string {
    var header, body := B.Encode(j.tokenHeader(j.algorithm(k))), B.Encode(claims);
    header + "." + (body + "." + B.Encode(SignRaw(j, k, TokenInput(header, body))))
  }

  // IdentitySigner.sign()
  function SignIdentity<K, P>(
      j: Jose<K, P>, c: Claims<P>, sdp: string, k: K, domain: string, claims: bytes): string {
    Insert(sdp, c.build(domain, SignToken(j, claims, k), SignFingerprints(j, sdp, k)))
  }

  datatype Verified<P> = Verified(sdp: string, domain: string, key: P)

  // The token's key, when the token is well formed, signed by that key and not expired.
  function TokenKey<K, P>(j: Jose<K, P>, c: Claims<P>, token: string): Option<P> {
    var parts := SplitDots(token);
    if |parts| != 3 then None
    else
      match B.Decode(parts[0])
      case None => None
      case Some(header) =>
        match B.Decode(parts[1])
        case None => None
        case Some(claims) =>
          match B.Decode(parts[2])
          case None => None
          case Some(signature) =>
            match j.headerAlgorithm(header)
            case None => None
            case Some(alg) =>
              match c.key(claims)
              case None => None
              case Some(key) =>
                if VerifyRaw(j, key, alg, TokenInput(parts[0], parts[1]), signature) && !c.expired(claims)
                then Some(key) else None
  }

  // verify_server_identity(); None wherever it raises InvalidIdentity.
  function VerifyServerIdentity<K, P>(j: Jose<K, P>, c: Claims<P>, sdp: string): Option<Verified<P>> {
    match Extract(sdp, c.parse)
    case Plain(_) => None
    case Malformed => None
    case Asserted(stripped, envelope) =>
      match TokenKey(j, c, envelope.token)
      case None => None
      case Some(key) =>
        if VerifyFingerprints(j, stripped, envelope.fingerprints, key)
        then Some(Verified(stripped, envelope.domain, key)) else None
  }

  lemma TokenKeyOfSigned<K(!new), P(!new)>(j: Jose<K, P>, c: Claims<P>, claims: bytes, k: K)
    requires Lawful(j) && c.key(claims) == Some(j.public(k)) && !c.expired(claims)
    ensures TokenKey(j, c, SignToken(j, claims, k)) == Some(j.public(k))
  {
    var header, body := B.Encode(j.tokenHeader(j.algorithm(k))), B.Encode(claims);
    var raw := SignRaw(j, k, TokenInput(header, body));
    B.DecodeEncode(j.tokenHeader(j.algorithm(k)));
    B.DecodeEncode(claims);
    B.DecodeEncode(raw);
    SplitClean(header, body, B.Encode(raw));
    RawIsExact(j, k, TokenInput(header, body), j.public(k), TokenInput(header, body));
  }

  // A signed answer verifies, giving back the SDP byte for byte with the domain and the signer's
  // key, exactly when the SDP had no identity yet and the inserted line gets a line of its own.
  lemma SignedIdentityVerifiesIff<K(!new), P(!new)>(
      j: Jose<K, P>, c: Claims<P>, sdp: string, k: K, domain: string, claims: bytes)
    requires Lawful(j) && Readable(c) && c.key(claims) == Some(j.public(k)) && !c.expired(claims)
    ensures VerifyServerIdentity(j, c, SignIdentity(j, c, sdp, k, domain, claims))
            == Some(Verified(sdp, domain, j.public(k)))
            <==> HasNoIdentity(sdp) && Placeable(sdp)
  {
    var token, fingerprints := SignToken(j, claims, k), SignFingerprints(j, sdp, k);
    var value := c.build(domain, token, fingerprints);
    assert OneLine(value) && c.parse(value) == Some(Envelope(domain, "default", token, fingerprints));
    InsertExtractExact(sdp, value, c.parse);
    if HasNoIdentity(sdp) && Placeable(sdp) {
      TokenKeyOfSigned(j, c, claims, k);
      VerifyIsEcdsa(j, sdp, sdp, k, j.public(k));
    } else if StripIdentity(Insert(sdp, value)) == sdp {
      StrippedIsPlaceable(sdp, value);
    }
  }

  // ---- what is accepted ----

  // The text encodes a signature of the fixed width that ECDSA accepts.
  predicate SignatureIs<K, P>(j: Jose<K, P>, key: P, alg: Algorithm, data: bytes, text: string, r: nat, s: nat) {
    && r < Pow256(Size(alg)) && s < Pow256(Size(alg))
    && B.Decode(text) == Some(BigEndian(Size(alg), r) + BigEndian(Size(alg), s))
    && j.ecdsaVerify(key, alg, data, r, s)
  }

  ghost predicate Signs<K(!new), P(!new)>(j: Jose<K, P>, key: P, alg: Algorithm, data: bytes, text: string) {
    exists r: nat, s: nat :: SignatureIs(j, key, alg, data, text, r, s)
  }

  lemma SignsIff<K(!new), P(!new)>(j: Jose<K, P>, key: P, alg: Algorithm, data: bytes, text: string)
    ensures Signs(j, key, alg, data, text)
            <==> B.Decode(text).Some? && VerifyRaw(j, key, alg, data, B.Decode(text).value)
  {
    var n := Size(alg);
    if r: nat, s: nat :| SignatureIs(j, key, alg, data, text, r, s) {
      BigEndianRoundTrip(n, r);
      BigEndianRoundTrip(n, s);
      var raw := BigEndian(n, r) + BigEndian(n, s);
      assert raw[..n] == BigEndian(n, r) && raw[n..] == BigEndian(n, s);
    } else if B.Decode(text).Some? && VerifyRaw(j, key, alg, data, B.Decode(text).value) {
      var raw := B.Decode(text).value;
      BigEndianOfValue(raw[..n]);
      BigEndianOfValue(raw[n..]);
      assert raw == raw[..n] + raw[n..];
      assert SignatureIs(j, key, alg, data, text, FromBigEndian(raw[..n]), FromBigEndian(raw[n..]));
    }
  }

  // "header.claims.signature": the claims carry the key and have not expired, and the key signed
  // the header and the claims with the algorithm the header names.
  ghost predicate TokenParts<K(!new), P(!new)>(
      j: Jose<K, P>, c: Claims<P>, token: string, key: P, header: string, claims: string, signature: string) {
    && NoDots(header) && NoDots(claims) && NoDots(signature)
    && token == header + "." + (claims + "." + signature)
    && B.Decode(header).Some? && B.Decode(claims).Some?
    && c.key(B.Decode(claims).value) == Some(key) && !c.expired(B.Decode(claims).value)
    && exists alg :: j.headerAlgorithm(B.Decode(header).value) == Some(alg)
                     && Signs(j, key, alg, U.Encode(header + "." + claims), signature)
  }

  ghost predicate SelfSigned<K(!new), P(!new)>(j: Jose<K, P>, c: Claims<P>, token: string, key: P) {
    exists header, claims, signature :: TokenParts(j, c, token, key, header, claims, signature)
  }

  // "header..signature": the key signed the header and the fingerprints of the SDP.
  ghost predicate DetachedOf<K(!new), P(!new)>(
      j: Jose<K, P>, sdp: string, jws: string, key: P, header: string, signature: string) {
    && NoDots(header) && NoDots(signature) && jws == header + "." + ("." + signature)
    && B.Decode(header).Some?
    && exists alg :: j.headerAlgorithm(B.Decode(header).value) == Some(alg)
                     && Signs(j, key, alg, U.Encode(header + "." + B.Encode(j.payload(Fingerprints(sdp)))), signature)
  }

  ghost predicate FingerprintsSigned<K(!new), P(!new)>(j: Jose<K, P>, sdp: string, jws: string, key: P) {
    exists header, signature :: DetachedOf(j, sdp, jws, key, header, signature)
  }

  lemma TokenKeyIsSigned<K(!new), P(!new)>(j: Jose<K, P>, c: Claims<P>, token: string, key: P)
    requires TokenKey(j, c, token) == Some(key)
    ensures SelfSigned(j, c, token, key)
  {
    var parts := SplitDots(token);
    ThreeParts(token);
    SignsIff(j, key, j.headerAlgorithm(B.Decode(parts[0]).value).value, TokenInput(parts[0], parts[1]), parts[2]);
    assert TokenParts(j, c, token, key, parts[0], parts[1], parts[2]);
  }

  lemma SignedGivesKey<K(!new), P(!new)>(
      j: Jose<K, P>, c: Claims<P>, token: string, key: P, header: string, claims: string, signature: string)
    requires TokenParts(j, c, token, key, header, claims, signature)
    ensures TokenKey(j, c, token) == Some(key)
  {
    SplitThree(header, claims, signature);
    SignsIff(j, key, j.headerAlgorithm(B.Decode(header).value).value, TokenInput(header, claims), signature);
  }

  lemma TokenKeyIff<K(!new), P(!new)>(j: Jose<K, P>, c: Claims<P>, token: string, key: P)
    ensures TokenKey(j, c, token) == Some(key) <==> SelfSigned(j, c, token, key)
  {
    if TokenKey(j, c, token) == Some(key) {
      TokenKeyIsSigned(j, c, token, key);
    } else if header, claims, signature :| TokenParts(j, c, token, key, header, claims, signature) {
      SignedGivesKey(j, c, token, key, header, claims, signature);
    }
  }

  lemma DetachedSplit(a: string, c: string)
    requires NoDots(a) && NoDots(c)
    ensures SplitDots(a + "." + ("." + c)) == [a, "", c]
  {
    SplitThree(a, "", c);
    assert "" + "." + c == "." + c;
  }

  lemma VerifiedIsDetached<K(!new), P(!new)>(j: Jose<K, P>, sdp: string, jws: string, key: P)
    requires VerifyFingerprints(j, sdp, jws, key)
    ensures FingerprintsSigned(j, sdp, jws, key)
  {
    var parts := SplitDots(jws);
    ThreeParts(jws);
    assert "" + "." + parts[2] == "." + parts[2];
    SignsIff(j, key, j.headerAlgorithm(B.Decode(parts[0]).value).value, SigningInput(j, parts[0], sdp), parts[2]);
    assert DetachedOf(j, sdp, jws, key, parts[0], parts[2]);
  }

  lemma DetachedVerifies<K(!new), P(!new)>(
      j: Jose<K, P>, sdp: string, jws: string, key: P, header: string, signature: string)
    requires DetachedOf(j, sdp, jws, key, header, signature)
    ensures VerifyFingerprints(j, sdp, jws, key)
  {
    DetachedSplit(header, signature);
    SignsIff(j, key, j.headerAlgorithm(B.Decode(header).value).value, SigningInput(j, header, sdp), signature);
  }

  lemma FingerprintsIff<K(!new), P(!new)>(j: Jose<K, P>, sdp: string, jws: string, key: P)
    ensures VerifyFingerprints(j, sdp, jws, key) <==> FingerprintsSigned(j, sdp, jws, key)
  {
    if VerifyFingerprints(j, sdp, jws, key) {
      VerifiedIsDetached(j, sdp, jws, key);
    } else if header, signature :| DetachedOf(j, sdp, jws, key, header, signature) {
      DetachedVerifies(j, sdp, jws, key, header, signature);
    }
  }

  // Sound and complete, from ECDSA outward: an SDP is accepted exactly when the last of its identity
  // lines holds an envelope whose token is signed by the key it carries and has not expired, and
  // that key has signed the fingerprints; and what is returned is the rest of the SDP, which has
  // the same fingerprints, the envelope's domain and that key.
  lemma VerifiedIffSigned<K(!new), P(!new)>(j: Jose<K, P>, c: Claims<P>, sdp: string, rest: string, domain: string, key: P)
    ensures VerifyServerIdentity(j, c, sdp) == Some(Verified(rest, domain, key))
            <==> && rest == StripIdentity(sdp) && IdentityValue(SplitLines(sdp)).Some?
                 && var envelope := c.parse(IdentityValue(SplitLines(sdp)).value);
                    && envelope.Some? && envelope.value.domain == domain
                    && SelfSigned(j, c, envelope.value.token, key)
                    && FingerprintsSigned(j, sdp, envelope.value.fingerprints, key)
  {
    match Extract(sdp, c.parse) {
      case Plain(_) =>
      case Malformed =>
      case Asserted(stripped, envelope) =>
        TokenKeyIff(j, c, envelope.token, key);
        FingerprintsIff(j, stripped, envelope.fingerprints, key);
        FingerprintsIff(j, sdp, envelope.fingerprints, key);
        FingerprintsSurviveStrip(sdp);
    }
  }

  // The envelope made for one SDP, put into another: it is accepted, as that signer's, exactly when
  // ECDSA accepts the signature for the other's fingerprints, and refused otherwise.
  lemma MovedEnvelope<K(!new), P(!new)>(
      j: Jose<K, P>, c: Claims<P>, sdp: string, other: string, k: K, domain: string, claims: bytes)
    requires Lawful(j) && Readable(c) && c.key(claims) == Some(j.public(k)) && !c.expired(claims)
    requires HasNoIdentity(other) && Placeable(other)
    ensures var header := B.Encode(j.header(j.algorithm(k)));
            var sig := j.ecdsaSign(k, SigningInput(j, header, sdp));
            var value := c.build(domain, SignToken(j, claims, k), SignFingerprints(j, sdp, k));
            VerifyServerIdentity(j, c, Insert(other, value))
            == if j.ecdsaVerify(j.public(k), j.algorithm(k), SigningInput(j, header, other), sig.0, sig.1)
               then Some(Verified(other, domain, j.public(k))) else None
  {
    var token, fingerprints := SignToken(j, claims, k), SignFingerprints(j, sdp, k);
    var value := c.build(domain, token, fingerprints);
    assert OneLine(value) && c.parse(value) == Some(Envelope(domain, "default", token, fingerprints));
    InsertExtractExact(other, value, c.parse);
    TokenKeyOfSigned(j, c, claims, k);
    VerifyIsEcdsa(j, sdp, other, k, j.public(k));
  }

  // "a=fingerprint:<algorithm> <digest>", the digest being all that follows the first space.
  lemma FingerprintIs(algorithm: string, digest: string)
    requires forall i :: 0 <= i < |algorithm| ==> algorithm[i] != ' '
    ensures IsFingerprint("a=fingerprint:" + (algorithm + " " + digest)) && IsFingerprint("a=fingerprint:" + algorithm)
    ensures FingerprintOf("a=fingerprint:" + (algorithm + " " + digest)) == Fingerprint(algorithm, digest)
    ensures FingerprintOf("a=fingerprint:" + algorithm) == Fingerprint(algorithm, "")
  {
    FirstIs(' ', algorithm, digest);
    var rest := algorithm + " " + digest;
    assert ("a=fingerprint:" + rest)[|FINGERPRINT|..] == rest;
    assert ("a=fingerprint:" + algorithm)[|FINGERPRINT|..] == algorithm;
    assert rest[..|algorithm|] == algorithm && rest[|algorithm| + 1..] == digest;
  }

  // One entry for each fingerprint line, in order, and for no other line.
  lemma FingerprintsLineByLine(sdp: string)
    ensures var lines := SplitLines(sdp);
            var at := Positions(lines, IsFingerprint);
            && |Fingerprints(sdp)| == |at| && Ascending(at)
            && (forall k :: 0 <= k < |lines| ==> (k in at <==> "a=fingerprint:" <= Strip(lines[k])))
            && (forall i :: 0 <= i < |at| ==> at[i] < |lines| && IsFingerprint(Strip(lines[at[i]]))
                                              && Fingerprints(sdp)[i] == FingerprintOf(Strip(lines[at[i]])))
  {
    var lines := SplitLines(sdp);
    var at := Positions(lines, IsFingerprint);
    PositionsExactly(lines, IsFingerprint);
    PickedAt(lines, IsFingerprint);
    PickedSatisfy(lines, IsFingerprint);
    assert forall i :: 0 <= i < |at| ==> at[i] in at;
  }
}
