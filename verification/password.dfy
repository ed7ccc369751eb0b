/** The password-record codec of _utils/mosquitto.py: the constructor checks
    of MosquittoPasswordBase and its two subclasses, hashing, serialisation to
    the broker formats and parsing back.

    Formats:
      legacy Mosquitto, SHA-512    `$6$<b64 salt>$<b64 digest>`
      legacy Mosquitto, PBKDF2     `$7$<iterations>$<b64 salt>$<b64 digest>`
      mosquitto-go-auth, PBKDF2    `PBKDF2$<hmac>$<iterations>$<b64 salt>$<b64 digest>`

    The hash functions themselves (PBKDF2 of section 5.2 of RFC 8018 and
    SHA-512 of FIPS 180-4) are not modelled: they are parameters. */
module Password {
  import opened Outcomes
  import opened Text
  import Base64

  type Bytes = Base64.Bytes

  datatype Algo = Sha512 | Pbkdf2
  datatype HmacHash = HmacSha256 | HmacSha512

  /** Which class a record belongs to: MosquittoPassword (legacy broker
      format) or MosquittoGoauthPassword. */
  datatype Flavor = Legacy | GoAuth

  /** The digest argument of the constructor: bytes, or something else. */
  datatype DigestArg = RawDigest(bytes: Bytes) | TextDigest(text: string)

  /** The state of a password object once its constructor has succeeded. */
  datatype Record = Record(
    flavor: Flavor,
    salt: Bytes,
    algo: Algo,
    hmac: HmacHash,
    iterations: nat,
    keylen: int,
    password: Option<Bytes>,
    digest: Option<Bytes>)

  /** The hash primitives, supplied from outside: PBKDF2-HMAC with the given
      hash, password, salt, iteration count and key length, and SHA-512. */
  datatype Primitives = Primitives(
    pbkdf2: (HmacHash, Bytes, Bytes, nat, nat) -> Bytes,
    sha512: Bytes -> Bytes)

  /** The output lengths the primitives promise. */
  ghost predicate WellFormed(p: Primitives) {
    && (forall x :: |p.sha512(x)| == 64)
    && (forall h, pw, s, i, k :: |p.pbkdf2(h, pw, s, i, k)| == k)
  }

  const AlgoMessage := "Supported hashing algorithms are sha512 and pbkdf2."
  const IterationsMessage := "Need at least one iteration."
  const HmacMessage := "Hmac hashing function needs to be either sha256 or sha512."
  const MissingMessage := "Need at least either password or digest."
  const DigestTypeMessage := "Need digest as raw bytes."
  const SaltMessage := "Password salt has to consist of exactly 12 (random) bytes."
  const LengthMessage := "Password should have at most 65500 bytes. How has your day been?"
  const ParseMessage := "Could not parse input string."
  const KeyLengthMessage := "key length must be greater than 0."
  const IterationsTooGreatMessage := "iteration value is too great."
  const KeyLengthTooGreatMessage := "key length is too great."

  /** hashlib passes iteration counts and key lengths to OpenSSL as C `int`s. */
  const IntMax := 0x7FFF_FFFF
  const Base64Message := "Invalid base64-encoded string"

  function AlgoOf(name: string): Option<Algo> {
    if name == "sha512" then Some(Sha512) else if name == "pbkdf2" then Some(Pbkdf2) else None
  }

  function HmacOf(name: string): Option<HmacHash> {
    if name == "sha256" then Some(HmacSha256) else if name == "sha512" then Some(HmacSha512) else None
  }

  function HmacName(h: HmacHash): (r: string)
    ensures HmacOf(r) == Some(h)
  {
    match h
    case HmacSha256 => "sha256"
    case HmacSha512 => "sha512"
  }

  /** MOSQUITTO_ALGO: the broker's numeric identifiers. */
  function AlgoTag(a: Algo): nat {
    match a
    case Sha512 => 6
    case Pbkdf2 => 7
  }

  // ---------------------------------------------------------------------
  // Constructors
  // ---------------------------------------------------------------------

  /** MosquittoPasswordBase.__init__: five checks, in this order, each a
      ValueError; otherwise the record holds exactly the arguments. */
  function NewBase(flavor: Flavor, salt: Bytes, algo: string, hmac: string, iterations: int,
                   keylen: int, password: Option<Bytes>, digest: Option<DigestArg>): (r: Result<Record>)
    ensures r.Ok? <==>
      && AlgoOf(algo).Some?
      && iterations >= 1
      && HmacOf(hmac).Some?
      && (password.Some? || digest.Some?)
      && (digest.Some? ==> digest.value.RawDigest?)
    ensures AlgoOf(algo).None? ==> r == Err(ValueError(AlgoMessage))
    ensures AlgoOf(algo).Some? && iterations < 1 ==> r == Err(ValueError(IterationsMessage))
    ensures AlgoOf(algo).Some? && iterations >= 1 && HmacOf(hmac).None? ==> r == Err(ValueError(HmacMessage))
    ensures AlgoOf(algo).Some? && iterations >= 1 && HmacOf(hmac).Some? && password.None? && digest.None?
            ==> r == Err(ValueError(MissingMessage))
    ensures (AlgoOf(algo).Some? && iterations >= 1 && HmacOf(hmac).Some? && (password.Some? || digest.Some?)
             && digest.Some? && !digest.value.RawDigest?) ==> r == Err(ValueError(DigestTypeMessage))
    ensures r.Ok? ==> r.value == Record(flavor, salt, AlgoOf(algo).value, HmacOf(hmac).value, iterations,
                                        keylen, password, if digest.Some? then Some(digest.value.bytes) else None)
  {
    if AlgoOf(algo).None? then Err(ValueError(AlgoMessage))
    else if iterations < 1 then Err(ValueError(IterationsMessage))
    else if HmacOf(hmac).None? then Err(ValueError(HmacMessage))
    else if password.None? && digest.None? then Err(ValueError(MissingMessage))
    else if digest.Some? && !digest.value.RawDigest? then Err(ValueError(DigestTypeMessage))
    else
      Ok(Record(flavor, salt, AlgoOf(algo).value, HmacOf(hmac).value, iterations, keylen, password,
                if digest.Some? then Some(digest.value.bytes) else None))
  }

  /** MosquittoPassword.__init__: a 12-byte salt and a password of at most
      65500 bytes, then the base checks with HMAC SHA-512 and a 64-byte key. */
  function NewLegacy(salt: Bytes, algo: string, iterations: int,
                     password: Option<Bytes>, digest: Option<DigestArg>): (r: Result<Record>)
    ensures r.Ok? <==>
      && |salt| == 12
      && (password.Some? ==> |password.value| <= 65500)
      && NewBase(Legacy, salt, algo, "sha512", iterations, 64, password, digest).Ok?
    ensures r.Ok? ==> && r.value.flavor == Legacy && r.value.salt == salt
                      && r.value.hmac == HmacSha512 && r.value.keylen == 64
                      && r.value.algo == AlgoOf(algo).value && r.value.iterations == iterations
  {
    if |salt| != 12 then Err(ValueError(SaltMessage))
    else if password.Some? && |password.value| > 65500 then Err(ValueError(LengthMessage))
    else NewBase(Legacy, salt, algo, "sha512", iterations, 64, password, digest)
  }

  /** MosquittoGoauthPassword.__init__: always PBKDF2, then the base checks. */
  function NewGoauth(salt: Bytes, hmac: string, iterations: int, keylen: int,
                     password: Option<Bytes>, digest: Option<DigestArg>): (r: Result<Record>)
    ensures r.Ok? <==> NewBase(GoAuth, salt, "pbkdf2", hmac, iterations, keylen, password, digest).Ok?
    ensures r.Ok? ==> && r.value.flavor == GoAuth && r.value.algo == Pbkdf2 && r.value.salt == salt
                      && r.value.hmac == HmacOf(hmac).value && r.value.iterations == iterations
                      && r.value.keylen == keylen
  {
    NewBase(GoAuth, salt, "pbkdf2", hmac, iterations, keylen, password, digest)
  }

  /** MosquittoPassword.from_password, with the random salt as a parameter. */
  function LegacyFromPassword(password: Option<Bytes>, salt: Bytes, algo: string := "pbkdf2",
                              iterations: int := 101): (r: Result<Record>)
    ensures r.Ok? ==> r.value.password == password && r.value.digest.None? && r.value.flavor == Legacy
  {
    NewLegacy(salt, algo, iterations, password, None)
  }

  /** MosquittoGoauthPassword.from_password, with the random salt (of the
      caller's salt_size) as a parameter. */
  function GoauthFromPassword(password: Option<Bytes>, salt: Bytes, hmac: string := "sha512",
                              iterations: int := 100000, keylen: int := 32): (r: Result<Record>)
    ensures r.Ok? ==> r.value.password == password && r.value.digest.None? && r.value.flavor == GoAuth
  {
    NewGoauth(salt, hmac, iterations, keylen, password, None)
  }

  // ---------------------------------------------------------------------
  // Hashing and checking
  // ---------------------------------------------------------------------

  /** The password `_hash` uses: the candidate if it is non-empty, else the
      stored one (`password or self.password`). */
  function EffectivePassword(rec: Record, candidate: Option<Bytes>): Option<Bytes> {
    if candidate.Some? && |candidate.value| > 0 then candidate else rec.password
  }

  /** `_hash`: PBKDF2 or SHA-512 of password followed by salt. Hashing
      nothing is a TypeError. For PBKDF2, hashlib then refuses an iteration
      count above INT_MAX, a key length below one and a key length above
      INT_MAX, in that order. */
  function Hash(prims: Primitives, rec: Record, candidate: Option<Bytes>): (r: Result<Bytes>)
    ensures r.Ok? <==> EffectivePassword(rec, candidate).Some?
                       && (rec.algo == Pbkdf2 ==> rec.iterations <= IntMax && 1 <= rec.keylen <= IntMax)
    ensures EffectivePassword(rec, candidate).None? ==> r == Err(TypeError)
    ensures EffectivePassword(rec, candidate).Some? && rec.algo == Pbkdf2 && rec.iterations > IntMax ==>
      r == Err(OverflowError(IterationsTooGreatMessage))
    ensures (EffectivePassword(rec, candidate).Some? && rec.algo == Pbkdf2 && rec.iterations <= IntMax
             && rec.keylen < 1) ==> r == Err(ValueError(KeyLengthMessage))
    ensures (EffectivePassword(rec, candidate).Some? && rec.algo == Pbkdf2 && rec.iterations <= IntMax
             && rec.keylen > IntMax) ==> r == Err(OverflowError(KeyLengthTooGreatMessage))
    ensures r.Ok? && WellFormed(prims) ==> |r.value| == if rec.algo == Pbkdf2 then rec.keylen else 64
  {
    var pw := EffectivePassword(rec, candidate);
    if pw.None? then Err(TypeError)
    else if rec.algo == Pbkdf2 then
      if rec.iterations > IntMax then Err(OverflowError(IterationsTooGreatMessage))
      else if rec.keylen < 1 then Err(ValueError(KeyLengthMessage))
      else if rec.keylen > IntMax then Err(OverflowError(KeyLengthTooGreatMessage))
      else Ok(prims.pbkdf2(rec.hmac, pw.value, rec.salt, rec.iterations, rec.keylen))
    else Ok(prims.sha512(pw.value + rec.salt))
  }

  /** The digest after `if not self.digest: self.digest = self._hash()`:
      a missing or empty digest is computed from the stored password. */
  function CurrentDigest(prims: Primitives, rec: Record): (r: Result<Bytes>)
    ensures rec.digest.Some? && |rec.digest.value| > 0 ==> r == Ok(rec.digest.value)
    ensures !(rec.digest.Some? && |rec.digest.value| > 0) ==> r == Hash(prims, rec, None)
  {
    if rec.digest.Some? && |rec.digest.value| > 0 then Ok(rec.digest.value) else Hash(prims, rec, None)
  }

  /** `check_password` on a record in state `rec`: true iff the candidate's
      digest equals the stored (or lazily computed) digest. */
  function Verify(prims: Primitives, rec: Record, candidate: Bytes): (r: Result<bool>)
    ensures r.Ok? ==> CurrentDigest(prims, rec).Ok? && Hash(prims, rec, Some(candidate)).Ok?
    ensures r.Ok? ==> (r.value <==> Hash(prims, rec, Some(candidate)).value == CurrentDigest(prims, rec).value)
  {
    var stored := CurrentDigest(prims, rec);
    if stored.Err? then Err(stored.error)
    else
      var computed := Hash(prims, rec, Some(candidate));
      if computed.Err? then Err(computed.error) else Ok(computed.value == stored.value)
  }

  // ---------------------------------------------------------------------
  // Serialisation
  // ---------------------------------------------------------------------

  /** `to_string` once the digest is known: `_get_fmt` filled in. */
  function Format(rec: Record, digest: Bytes): string {
    var salt, dig := Base64.Encode(rec.salt), Base64.Encode(digest);
    match rec.flavor
    case Legacy =>
      if rec.algo == Pbkdf2 then
        "$" + NatToString(AlgoTag(rec.algo)) + "$" + NatToString(rec.iterations) + "$" + salt + "$" + dig
      else
        "$" + NatToString(AlgoTag(rec.algo)) + "$" + salt + "$" + dig
    case GoAuth =>
      "PBKDF2" + "$" + HmacName(rec.hmac) + "$" + NatToString(rec.iterations) + "$" + salt + "$" + dig
  }

  // ---------------------------------------------------------------------
  // Parsing
  // ---------------------------------------------------------------------

  /** `base64.b64decode`, strict. */
  function B64Decode(s: string): (r: Result<Bytes>)
    ensures r.Ok? <==> Base64.Decode(s).Some?
    ensures r.Ok? ==> r.value == Base64.Decode(s).value
    ensures r.Err? ==> r.error == ValueError(Base64Message)
  {
    var d := Base64.Decode(s);
    if d.None? then Err(ValueError(Base64Message)) else Ok(d.value)
  }

  /** The `$`-fields of a legacy record: after the last `:`, outer `$`
      stripped. */
  function LegacyFields(s: string): seq<string> {
    var t := Split(s, ':');
    Split(Strip(t[|t| - 1], '$'), '$')
  }

  /** MosquittoPassword.from_string. Three fields with tag 6 are SHA-512
      with one iteration, four fields with tag 7 are PBKDF2 with the second
      field as iteration count; everything else is a ValueError. */
  function ParseLegacy(s: string): (r: Result<Record>)
    ensures r.Ok? ==>
      var parts := LegacyFields(s);
      && r.value.flavor == Legacy && r.value.password.None? && r.value.digest.Some?
      && ((|parts| == 3 && ParseInt(parts[0]) == Ok(6) && r.value.algo == Sha512 && r.value.iterations == 1)
       || (|parts| == 4 && ParseInt(parts[0]) == Ok(7) && r.value.algo == Pbkdf2
           && ParseInt(parts[1]) == Ok(r.value.iterations)))
  {
    var parts := LegacyFields(s);
    if |parts| == 3 && ParseInt(parts[0]).Err? then Err(ParseInt(parts[0]).error)
    else if |parts| == 3 && ParseInt(parts[0]) == Ok(6) then
      BuildLegacy("sha512", parts[1], parts[2], Ok(1))
    else if |parts| == 4 && ParseInt(parts[0]).Err? then Err(ParseInt(parts[0]).error)
    else if |parts| == 4 && ParseInt(parts[0]) == Ok(7) then
      BuildLegacy("pbkdf2", parts[2], parts[3], ParseInt(parts[1]))
    else Err(ValueError(ParseMessage))
  }

  /** The tail of MosquittoPassword.from_string: decode salt and digest,
      then construct with the digest and no password. */
  function BuildLegacy(algo: string, salt: string, digest: string, iterations: Result<nat>): (r: Result<Record>)
    ensures r.Ok? ==> && iterations.Ok? && r.value.iterations == iterations.value
                      && r.value.password.None? && r.value.digest.Some? && r.value.flavor == Legacy
                      && AlgoOf(algo) == Some(r.value.algo)
  {
    var s := B64Decode(salt);
    if s.Err? then Err(s.error)
    else
      var d := B64Decode(digest);
      if d.Err? then Err(d.error)
      else if iterations.Err? then Err(iterations.error)
      else NewLegacy(s.value, algo, iterations.value, None, Some(RawDigest(d.value)))
  }

  /** MosquittoGoauthPassword.from_string: exactly five `$`-fields after the
      last `:` (the first is not checked); the key length is the decoded
      digest's length. */
  function ParseGoauth(s: string): (r: Result<Record>)
    ensures r.Ok? ==>
      var t := Split(s, ':');
      var parts := Split(t[|t| - 1], '$');
      && |parts| == 5 && r.value.flavor == GoAuth && r.value.algo == Pbkdf2
      && r.value.password.None? && r.value.digest.Some?
      && r.value.keylen == |r.value.digest.value|
      && HmacOf(parts[1]) == Some(r.value.hmac)
      && ParseInt(parts[2]) == Ok(r.value.iterations)
  {
    var t := Split(s, ':');
    var parts := Split(t[|t| - 1], '$');
    if |parts| != 5 then Err(ValueError(ParseMessage))
    else
      var salt := B64Decode(parts[3]);
      if salt.Err? then Err(salt.error)
      else
        var digest := B64Decode(parts[4]);
        if digest.Err? then Err(digest.error)
        else
          var iterations := ParseInt(parts[2]);
          if iterations.Err? then Err(iterations.error)
          else NewGoauth(salt.value, parts[1], iterations.value, |digest.value|, None,
                         Some(RawDigest(digest.value)))
  }

  // ---------------------------------------------------------------------
  // The password object, whose digest is filled in lazily
  // ---------------------------------------------------------------------

  class PasswordRecord {
    const flavor: Flavor
    const salt: Bytes
    const algo: Algo
    const hmac: HmacHash
    const iterations: nat
    const keylen: int
    const password: Option<Bytes>
    var digest: Option<Bytes>

    /** The object's state as a value. */
    function State(): Record
      reads this
    {
      Record(flavor, salt, algo, hmac, iterations, keylen, password, digest)
    }

    /** Wraps the state a successful constructor check produced. */
    constructor (rec: Record)
      ensures State() == rec
    {
      flavor, salt, algo, hmac := rec.flavor, rec.salt, rec.algo, rec.hmac;
      iterations, keylen, password, digest := rec.iterations, rec.keylen, rec.password, rec.digest;
    }

    /** Fills in a missing or empty digest from the stored password. */
    method EnsureDigest(prims: Primitives) returns (r: Result<Bytes>)
      modifies this
      ensures r == CurrentDigest(prims, old(State()))
      ensures digest == if r.Ok? then Some(r.value) else old(digest)
    {
      if digest.None? || |digest.value| == 0 {
        r := Hash(prims, State(), None);
        if r.Ok? {
          digest := Some(r.value);
        }
      } else {
        r := Ok(digest.value);
      }
    }

    /** `to_string`: the record in its broker format; computes the digest
        first when there is none. */
    method ToString(prims: Primitives) returns (r: Result<string>)
      modifies this
      ensures var d := CurrentDigest(prims, old(State()));
              && (d.Ok? ==> r == Ok(Format(old(State()), d.value)) && digest == Some(d.value))
              && (d.Err? ==> r == Err(d.error) && digest == old(digest))
    {
      var d := EnsureDigest(prims);
      if d.Err? {
        return Err(d.error);
      }
      r := Ok(Format(State(), d.value));
    }

    /** `check_password`: compares the candidate's digest with the stored
        one, computing the stored one first when there is none. */
    method CheckPassword(prims: Primitives, candidate: Bytes) returns (r: Result<bool>)
      modifies this
      ensures r == Verify(prims, old(State()), candidate)
      ensures var d := CurrentDigest(prims, old(State()));
              digest == if d.Ok? then Some(d.value) else old(digest)
    {
      var stored := EnsureDigest(prims);
      if stored.Err? {
        return Err(stored.error);
      }
      var computed := Hash(prims, State(), Some(candidate));
      if computed.Err? {
        return Err(computed.error);
      }
      r := Ok(computed.value == stored.value);
    }
  }
}
