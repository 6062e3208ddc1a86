/**
 Sealing of the cutover audit artifact and its integrity check. Hashing and HMAC are abstract functions of which only
 the shape of the output is assumed: 64 hex digits. Collisions are part of the statements.
 */
module AuditArtifact {
  import opened Wrappers
  import opened CanonicalJson

  type SigningKey = seq<bv8>

  const MINIMUM_KEY_BYTES := 32

  datatype Crypto = Crypto(digest: Text -> Text, hmac: (SigningKey, Text) -> Text)

  predicate HexDigest(t: Text) {
    |t| == 64 && forall i :: 0 <= i < |t| ==> 0x30 <= t[i] <= 0x39 || 0x61 <= t[i] <= 0x66
  }

  ghost predicate HexOutputs(c: Crypto) {
    && (forall t: Text :: HexDigest(c.digest(t)))
    && (forall k: SigningKey, t: Text :: HexDigest(c.hmac(k, t)))
  }

  /** Two different texts with one digest. */
  predicate Collide(c: Crypto, s: Text, t: Text) {
    s != t && c.digest(s) == c.digest(t)
  }

  datatype Artifact = Artifact(body: Json, artifactHash: Text, signature: Option<Text>)

  datatype SealError =
    | UnsupportedSchema
    | HashMismatch
    | KeyRequired
    | KeyTooShort
    | SignatureMismatch

  function Sha256(c: Crypto, v: Json): Text {
    c.digest(Print(v))
  }

  /** An absent or empty key means "do not sign". */
  predicate NoKey(key: Option<SigningKey>) {
    key.None? || key.value == []
  }

  function SignHash(c: Crypto, hash: Text, key: Option<SigningKey>): Result<Option<Text>, SealError> {
    if NoKey(key) then Ok(None)
    else if |key.value| < MINIMUM_KEY_BYTES then Err(KeyTooShort)
    else Ok(Some(c.hmac(key.value, hash)))
  }

  predicate SafeEqualHex(left: Text, right: Text) {
    HexDigest(left) && HexDigest(right) && left == right
  }

  function Seal(c: Crypto, body: Json, key: Option<SigningKey>): Result<Artifact, SealError> {
    var hash := Sha256(c, body);
    match SignHash(c, hash, key)
    case Err(e) => Err(e)
    case Ok(signature) => Ok(Artifact(body, hash, signature))
  }

  /** The digits 0 to 9 and the letters a to f. */
  const HEX_DIGITS: Text := [0x30, 0x31, 0x32, 0x33, 0x34, 0x35, 0x36, 0x37, 0x38, 0x39, 0x61, 0x62, 0x63, 0x64, 0x65, 0x66]

  lemma HexUnit(u: CodeUnit)
    ensures u in HEX_DIGITS <==> 0x30 <= u <= 0x39 || 0x61 <= u <= 0x66
  {
    if 0x30 <= u <= 0x39 {
      assert HEX_DIGITS[u - 0x30] == u;
    } else if 0x61 <= u <= 0x66 {
      assert HEX_DIGITS[u - 0x61 + 10] == u;
    }
  }

  /** Only 64 of the sixteen lower-case hex digits are compared; anything else is no digest. */
  lemma HexDigestExactly(t: Text)
    ensures HexDigest(t) <==> |t| == 64 && forall i :: 0 <= i < |t| ==> t[i] in HEX_DIGITS
  {
    forall u: CodeUnit { HexUnit(u); }
  }

  /** Sealing fails exactly on a key that is there and too short; without a key, or with an empty one, it does not sign. */
  lemma SealsExactly(c: Crypto, body: Json, key: Option<SigningKey>)
    ensures Seal(c, body, key).Ok? <==> key.None? || |key.value| == 0 || 32 <= |key.value|
    ensures Seal(c, body, key).Ok? ==>
              Seal(c, body, key).value
              == Artifact(body, c.digest(Print(body)),
                          if key.None? || |key.value| == 0 then None else Some(c.hmac(key.value, c.digest(Print(body)))))
  {
  }

  /** "schemaVersion" and "fulfillment-v2-cutover-audit/v1". */
  const SCHEMA_VERSION_KEY: Text := Ascii("schemaVersion")
  const AUDIT_SCHEMA_VERSION: Text := Ascii("fulfillment-v2-cutover-audit/v1")

  function Ascii(s: string): Text {
    seq(|s|, i requires 0 <= i < |s| => (s[i] as int) % 0x1_0000)
  }

  predicate SupportedSchema(body: Json) {
    body.Obj? && SCHEMA_VERSION_KEY in Keys(body.fields) &&
    ValueAt(body.fields, SCHEMA_VERSION_KEY) == Str(AUDIT_SCHEMA_VERSION)
  }

  function AssertIntegrity(c: Crypto, artifact: Artifact, key: Option<SigningKey>): Result<(), SealError> {
    if !SupportedSchema(artifact.body) then Err(UnsupportedSchema)
    else
      var computed := Sha256(c, artifact.body);
      if !SafeEqualHex(artifact.artifactHash, computed) then Err(HashMismatch)
      else if artifact.signature.None? then Ok(())
      else if NoKey(key) then Err(KeyRequired)
      else match SignHash(c, computed, key)
        case Err(e) => Err(e)
        case Ok(expected) =>
          if SafeEqualHex(artifact.signature.value, expected.value) then Ok(()) else Err(SignatureMismatch)
  }

  /** The key at hand can check a hash signed with the sealing key. */
  predicate SignsAlike(c: Crypto, hash: Text, key: Option<SigningKey>, checkKey: Option<SigningKey>) {
    || key.None? || key.value == []
    || (&& checkKey.Some? && 32 <= |checkKey.value|
        && c.hmac(checkKey.value, hash) == c.hmac(key.value, hash))
  }

  /** A body that prints like a supported one is supported. */
  lemma SchemaIsPrinted(body: Json, altered: Json)
    requires WellFormed(body) && WellFormed(altered) && Same(body, altered) && SupportedSchema(body)
    ensures SupportedSchema(altered)
  {
    assert SCHEMA_VERSION_KEY in Keys(body.fields);
    assert altered.Obj?;
    assert SCHEMA_VERSION_KEY in Keys(altered.fields);
    assert Same(body.fields[IndexOfKey(body.fields, SCHEMA_VERSION_KEY)].value,
                ValueAt(altered.fields, SCHEMA_VERSION_KEY));
  }

  /**
   An artifact whose body was replaced after sealing is accepted exactly when the new body is the same value as the
   sealed one, or collides with it, and, for a signed artifact, the key at hand signs as the sealing key does. For
   plain bodies the same value means equal up to key order.
   */
  lemma IntegrityAcceptsExactlyTheSealedBody(c: Crypto, body: Json, key: Option<SigningKey>, sealed: Artifact,
                                             altered: Json, checkKey: Option<SigningKey>)
    requires HexOutputs(c)
    requires WellFormed(body) && SupportedSchema(body) && WellFormed(altered)
    requires Seal(c, body, key) == Ok(sealed)
    ensures AssertIntegrity(c, sealed.(body := altered), checkKey).Ok? <==>
            && (Same(body, altered) || (SupportedSchema(altered) && Collide(c, Print(body), Print(altered))))
            && SignsAlike(c, sealed.artifactHash, key, checkKey)
    ensures Plain(body) && Plain(altered) ==> (Same(body, altered) <==> EqualUpToKeyOrder(body, altered))
    ensures sealed.artifactHash == c.digest(Print(body)) && (sealed.signature.None? <==> key.None? || key.value == [])
  {
    if Same(body, altered) {
      SchemaIsPrinted(body, altered);
    }
    if SupportedSchema(altered) {
      CanonicalTextIdentifies(body, altered);
    }
    if Plain(body) && Plain(altered) {
      PlainSameIsEqual(body, altered);
    }
  }

  const ZEROS: Text := seq(64, i => 0x30)
  const ONES: Text := seq(64, i => 0x31)

  /** Any two texts can have different digests, and any two keys different signatures. */
  lemma DigestsCanDiffer(s: Text, k: SigningKey)
    ensures exists c :: HexOutputs(c) && (forall t :: !Collide(c, s, t)) && (forall l, t :: k != l ==> c.hmac(k, t) != c.hmac(l, t))
  {
    var c := Crypto(t => if t == s then ZEROS else ONES, (l, t) => if l == k then ZEROS else ONES);
    assert ZEROS[0] != ONES[0];
    assert HexOutputs(c) && (forall t :: !Collide(c, s, t)) && (forall l, t :: k != l ==> c.hmac(k, t) != c.hmac(l, t));
  }
}
