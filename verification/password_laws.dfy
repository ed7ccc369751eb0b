/** What the codec of _utils/mosquitto.py promises across operations:
    serialised records parse back to the same record, a derived record
    verifies its own password, and the serialised text is safe to store in
    the colon-delimited password file. */
module PasswordLaws {
  import opened Outcomes
  import opened Text
  import Base64
  import opened Password

  /** Free of the characters that delimit fields and lines. */
  predicate Clean(s: string) {
    '$' !in s && ':' !in s && !HasLineBreak(s)
  }

  lemma EncodingIsClean(b: Bytes)
    ensures Clean(Base64.Encode(b))
    ensures |b| > 0 ==> |Base64.Encode(b)| > 0 && Base64.Encode(b)[|Base64.Encode(b)| - 1] != '$'
  {
    var e := Base64.Encode(b);
    Base64.EncodeChars(b);
    forall k | 0 <= k < |e| ensures e[k] != '$' && e[k] != ':' && !IsLineBreak(e[k]) {
      if e[k] == '$' || e[k] == ':' || IsLineBreak(e[k]) {
        Base64.DelimitersAreNotEncodingChars(e[k]);
      }
    }
  }

  lemma DigitsAreClean(n: nat)
    ensures Clean(NatToString(n))
  {
    var s := NatToString(n);
    assert forall k :: 0 <= k < |s| ==> IsDigit(s[k]);
  }

  /** The fields `to_string` puts between `$` separators. */
  function FormatFields(rec: Record, d: Bytes): seq<string> {
    var salt, dig := Base64.Encode(rec.salt), Base64.Encode(d);
    match rec.flavor
    case Legacy =>
      if rec.algo == Pbkdf2 then [NatToString(AlgoTag(rec.algo)), NatToString(rec.iterations), salt, dig]
      else [NatToString(AlgoTag(rec.algo)), salt, dig]
    case GoAuth => ["PBKDF2", HmacName(rec.hmac), NatToString(rec.iterations), salt, dig]
  }

  lemma JoinThree(a: string, b: string, c: string)
    ensures Join([a, b, c], '$') == a + "$" + b + "$" + c
  {
    assert [a, b, c][1..] == [b, c] && [b, c][1..] == [c];
    assert Join([c], '$') == c;
    assert Join([b, c], '$') == b + "$" + c;
    assert Join([a, b, c], '$') == a + "$" + (b + "$" + c);
  }

  lemma JoinFour(a: string, b: string, c: string, e: string)
    ensures Join([a, b, c, e], '$') == a + "$" + b + "$" + c + "$" + e
  {
    assert [a, b, c, e][1..] == [b, c, e];
    JoinThree(b, c, e);
  }

  lemma JoinFive(a: string, b: string, c: string, e: string, f: string)
    ensures Join([a, b, c, e, f], '$') == a + "$" + b + "$" + c + "$" + e + "$" + f
  {
    assert [a, b, c, e, f][1..] == [b, c, e, f];
    JoinFour(b, c, e, f);
  }

  lemma PbkdfLegacyAsJoin(t: string, i: string, s: string, g: string)
    ensures "$" + t + "$" + i + "$" + s + "$" + g == "$" + Join([t, i, s, g], '$')
  {
    JoinFour(t, i, s, g);
    var x := t + "$" + i + "$" + s + "$" + g;
    assert "$" + t + "$" + i + "$" + s + "$" + g == "$" + x;
  }

  lemma ShaLegacyAsJoin(t: string, s: string, g: string)
    ensures "$" + t + "$" + s + "$" + g == "$" + Join([t, s, g], '$')
  {
    JoinThree(t, s, g);
    var x := t + "$" + s + "$" + g;
    assert "$" + t + "$" + s + "$" + g == "$" + x;
  }

  lemma FormatAsJoin(rec: Record, d: Bytes)
    ensures Format(rec, d) == (if rec.flavor == Legacy then "$" else "") + Join(FormatFields(rec, d), '$')
  {
    var salt, dig := Base64.Encode(rec.salt), Base64.Encode(d);
    var tag, iters := NatToString(AlgoTag(rec.algo)), NatToString(rec.iterations);
    match rec.flavor
    case Legacy =>
      if rec.algo == Pbkdf2 {
        PbkdfLegacyAsJoin(tag, iters, salt, dig);
      } else {
        ShaLegacyAsJoin(tag, salt, dig);
      }
    case GoAuth =>
      JoinFive("PBKDF2", HmacName(rec.hmac), iters, salt, dig);
      assert "" + Join(FormatFields(rec, d), '$') == Join(FormatFields(rec, d), '$');
  }

  lemma TagIsClean()
    ensures Clean("PBKDF2")
  {
    assert !HasLineBreak("PBKDF2");
  }

  lemma HmacNameIsClean(h: HmacHash)
    ensures Clean(HmacName(h))
  {
    var n := HmacName(h);
    assert forall k :: 0 <= k < |n| ==> !IsLineBreak(n[k]);
  }

  /** Every field of a serialised record is Clean. */
  lemma FormatFieldsClean(rec: Record, d: Bytes)
    ensures forall k :: 0 <= k < |FormatFields(rec, d)| ==> Clean(FormatFields(rec, d)[k])
  {
    EncodingIsClean(rec.salt);
    EncodingIsClean(d);
    DigitsAreClean(rec.iterations);
    DigitsAreClean(AlgoTag(rec.algo));
    TagIsClean();
    HmacNameIsClean(rec.hmac);
  }

  /** Joining with `$` keeps `:` and line boundaries out. */
  lemma {:induction false} JoinKeepsOut(parts: seq<string>)
    requires forall k :: 0 <= k < |parts| ==> Clean(parts[k])
    ensures ':' !in Join(parts, '$') && !HasLineBreak(Join(parts, '$'))
    decreases |parts|
  {
    if |parts| > 1 {
      JoinKeepsOut(parts[1..]);
      var j := Join(parts, '$');
      var rest := Join(parts[1..], '$');
      assert j == parts[0] + "$" + rest;
      forall k | 0 <= k < |j| ensures j[k] != ':' && !IsLineBreak(j[k]) {
        if k < |parts[0]| { assert j[k] == parts[0][k]; }
        else if k > |parts[0]| { assert j[k] == rest[k - |parts[0]| - 1]; }
      }
    } else if |parts| == 1 {
      assert Clean(parts[0]);
    }
  }

  /** The serialised form of any record holds no `:` and no line boundary,
      so it can be the hash part of a password-file line. */
  lemma FormatIsFileSafe(rec: Record, d: Bytes)
    ensures ':' !in Format(rec, d) && !HasLineBreak(Format(rec, d))
  {
    FormatAsJoin(rec, d);
    FormatFieldsClean(rec, d);
    JoinKeepsOut(FormatFields(rec, d));
    var j := Join(FormatFields(rec, d), '$');
    var s := Format(rec, d);
    if rec.flavor == Legacy {
      forall k | 0 <= k < |s| ensures s[k] != ':' && !IsLineBreak(s[k]) {
        if k > 0 { assert s[k] == j[k - 1]; }
      }
    }
  }

  /** The last character of a join is that of its last, non-empty part. */
  lemma {:induction false} JoinLast(parts: seq<string>, sep: char)
    requires |parts| >= 1 && |parts[|parts| - 1]| > 0
    ensures |Join(parts, sep)| > 0
    ensures Join(parts, sep)[|Join(parts, sep)| - 1] == parts[|parts| - 1][|parts[|parts| - 1]| - 1]
    decreases |parts|
  {
    if |parts| > 1 {
      JoinLast(parts[1..], sep);
    }
  }

  /** The first character of a join is that of its first, non-empty part. */
  lemma JoinFirst(parts: seq<string>, sep: char)
    requires |parts| >= 1 && |parts[0]| > 0
    ensures |Join(parts, sep)| > 0 && Join(parts, sep)[0] == parts[0][0]
  {
  }

  /** The `$`-fields of a serialised legacy record. */
  lemma LegacyFieldsOfFormat(rec: Record, d: Bytes)
    requires rec.flavor == Legacy && |d| > 0
    ensures LegacyFields(Format(rec, d)) == FormatFields(rec, d)
  {
    var parts := FormatFields(rec, d);
    assert Format(rec, d) == "$" + Join(parts, '$') by { FormatAsJoin(rec, d); }
    assert ':' !in Format(rec, d) by { FormatIsFileSafe(rec, d); }
    FormatFieldsClean(rec, d);
    EncodingIsClean(d);
    assert IsDigit(parts[0][0]);
    LegacyFieldsOfJoin(Format(rec, d), parts);
  }

  /** A `$` followed by clean fields joined with `$`, the first starting
      with a digit and the last not ending with `$`, splits back into
      those fields. */
  lemma LegacyFieldsOfJoin(s: string, parts: seq<string>)
    requires s == "$" + Join(parts, '$') && ':' !in s
    requires |parts| >= 1 && |parts[0]| > 0 && IsDigit(parts[0][0])
    requires |parts[|parts| - 1]| > 0 && parts[|parts| - 1][|parts[|parts| - 1]| - 1] != '$'
    requires forall k :: 0 <= k < |parts| ==> Clean(parts[k])
    ensures LegacyFields(s) == parts
  {
    var body := Join(parts, '$');
    assert Split(s, ':') == [s] by { SplitWithoutSep(s, ':'); }
    assert Strip(s, '$') == body by {
      JoinFirst(parts, '$');
      JoinLast(parts, '$');
      StripOneLeading(body, '$');
    }
    assert Split(body, '$') == parts by { SplitJoin(parts, '$'); }
  }

  /** Parsing a serialised legacy record gives back its algorithm, salt and
      digest, and for PBKDF2 its iteration count (SHA-512 reads back as one
      iteration). */
  lemma LegacyRoundTrip(rec: Record, d: Bytes)
    requires rec.flavor == Legacy && |rec.salt| == 12 && rec.iterations >= 1 && |d| > 0
    ensures ParseLegacy(Format(rec, d)) ==
      Ok(Record(Legacy, rec.salt, rec.algo, HmacSha512,
                if rec.algo == Pbkdf2 then rec.iterations else 1, 64, None, Some(d)))
  {
    assert LegacyFields(Format(rec, d)) == FormatFields(rec, d) by { LegacyFieldsOfFormat(rec, d); }
    if rec.algo == Pbkdf2 {
      PbkdfParsesBack(Format(rec, d), rec, d);
    } else {
      ShaParsesBack(Format(rec, d), rec, d);
    }
  }

  /** The PBKDF2 case of LegacyRoundTrip: a string whose legacy fields are
      those of a PBKDF2 record parses back to it. */
  lemma PbkdfParsesBack(s: string, rec: Record, d: Bytes)
    requires rec.flavor == Legacy && rec.algo == Pbkdf2 && |rec.salt| == 12 && rec.iterations >= 1 && |d| > 0
    requires LegacyFields(s) == FormatFields(rec, d)
    ensures ParseLegacy(s) == Ok(Record(Legacy, rec.salt, Pbkdf2, HmacSha512, rec.iterations, 64, None, Some(d)))
  {
    var salt, dig := Base64.Encode(rec.salt), Base64.Encode(d);
    var tag, its := NatToString(7), NatToString(rec.iterations);
    assert FormatFields(rec, d) == [tag, its, salt, dig];
    ParseIntNatToString(7);
    ParseIntNatToString(rec.iterations);
    ParseFourFields(s, tag, its, salt, dig);
    BuildLegacyOfEncoded("pbkdf2", Pbkdf2, rec.salt, d, rec.iterations);
  }

  /** The SHA-512 case of LegacyRoundTrip: a string whose legacy fields are
      those of a SHA-512 record parses back to it. */
  lemma ShaParsesBack(s: string, rec: Record, d: Bytes)
    requires rec.flavor == Legacy && rec.algo == Sha512 && |rec.salt| == 12 && |d| > 0
    requires LegacyFields(s) == FormatFields(rec, d)
    ensures ParseLegacy(s) == Ok(Record(Legacy, rec.salt, Sha512, HmacSha512, 1, 64, None, Some(d)))
  {
    var salt, dig := Base64.Encode(rec.salt), Base64.Encode(d);
    var tag := NatToString(6);
    assert FormatFields(rec, d) == [tag, salt, dig];
    ParseIntNatToString(6);
    ParseThreeFields(s, tag, salt, dig);
    BuildLegacyOfEncoded("sha512", Sha512, rec.salt, d, 1);
  }

  /** Four legacy fields tagged 7 are read as PBKDF2. */
  lemma ParseFourFields(s: string, tag: string, its: string, salt: string, dig: string)
    requires LegacyFields(s) == [tag, its, salt, dig] && ParseInt(tag) == Ok(7)
    ensures ParseLegacy(s) == BuildLegacy("pbkdf2", salt, dig, ParseInt(its))
  {
  }

  /** Three legacy fields tagged 6 are read as SHA-512 with one iteration. */
  lemma ParseThreeFields(s: string, tag: string, salt: string, dig: string)
    requires LegacyFields(s) == [tag, salt, dig] && ParseInt(tag) == Ok(6)
    ensures ParseLegacy(s) == BuildLegacy("sha512", salt, dig, Ok(1))
  {
  }

  /** Rebuilding a legacy record from encoded salt and digest gives back
      exactly those bytes. */
  lemma BuildLegacyOfEncoded(name: string, algo: Algo, salt: Bytes, d: Bytes, iterations: nat)
    requires AlgoOf(name) == Some(algo) && |salt| == 12 && |d| > 0 && iterations >= 1
    ensures BuildLegacy(name, Base64.Encode(salt), Base64.Encode(d), Ok(iterations))
            == Ok(Record(Legacy, salt, algo, HmacSha512, iterations, 64, None, Some(d)))
  {
    assert B64Decode(Base64.Encode(salt)) == Ok(salt) by { Base64.DecodeEncode(salt); }
    assert B64Decode(Base64.Encode(d)) == Ok(d) by { Base64.DecodeEncode(d); }
  }

  /** Parsing a serialised go-auth record gives back its HMAC, iteration
      count, salt and digest; the key length becomes the digest's length. */
  lemma GoauthRoundTrip(rec: Record, d: Bytes)
    requires rec.flavor == GoAuth && rec.algo == Pbkdf2 && rec.iterations >= 1
    ensures ParseGoauth(Format(rec, d)) ==
      Ok(Record(GoAuth, rec.salt, Pbkdf2, rec.hmac, rec.iterations, |d|, None, Some(d)))
  {
    var s := Format(rec, d);
    var parts := FormatFields(rec, d);
    assert s == Join(parts, '$') by { FormatAsJoin(rec, d); }
    assert Split(s, ':') == [s] by {
      FormatIsFileSafe(rec, d);
      SplitWithoutSep(s, ':');
    }
    assert Split(s, '$') == parts by {
      FormatFieldsClean(rec, d);
      SplitJoin(parts, '$');
    }
    assert ParseInt(parts[2]) == Ok(rec.iterations) by { ParseIntNatToString(rec.iterations); }
    assert B64Decode(parts[3]) == Ok(rec.salt) by { Base64.DecodeEncode(rec.salt); }
    assert B64Decode(parts[4]) == Ok(d) by { Base64.DecodeEncode(d); }
    assert parts[1] == HmacName(rec.hmac);
  }

  /** A legacy record made from a non-empty password serialises, parses
      back and verifies that same password (PBKDF2 needs an iteration
      count hashlib accepts). */
  lemma LegacyDeriveVerify(prims: Primitives, pw: Bytes, salt: Bytes, algo: string, iterations: int)
    requires WellFormed(prims) && |pw| > 0 && (algo == "pbkdf2" ==> iterations <= IntMax)
    requires LegacyFromPassword(Some(pw), salt, algo, iterations).Ok?
    ensures var rec := LegacyFromPassword(Some(pw), salt, algo, iterations).value;
            var d := CurrentDigest(prims, rec);
            && d.Ok?
            && ParseLegacy(Format(rec, d.value)).Ok?
            && Verify(prims, ParseLegacy(Format(rec, d.value)).value, pw) == Ok(true)
  {
    var rec := LegacyFromPassword(Some(pw), salt, algo, iterations).value;
    var d := CurrentDigest(prims, rec);
    assert d == Hash(prims, rec, None) && d.Ok? && |d.value| == 64;
    LegacyRoundTrip(rec, d.value);
    var parsed := ParseLegacy(Format(rec, d.value)).value;
    assert Hash(prims, parsed, Some(pw)) == d;
  }

  /** A go-auth record made from a non-empty password, with an iteration
      count and a key length hashlib accepts, serialises, parses back and
      verifies that same password. */
  lemma GoauthDeriveVerify(prims: Primitives, pw: Bytes, salt: Bytes, hmac: string,
                           iterations: int, keylen: int)
    requires WellFormed(prims) && |pw| > 0 && iterations <= IntMax && 1 <= keylen <= IntMax
    requires GoauthFromPassword(Some(pw), salt, hmac, iterations, keylen).Ok?
    ensures var rec := GoauthFromPassword(Some(pw), salt, hmac, iterations, keylen).value;
            var d := CurrentDigest(prims, rec);
            && d.Ok?
            && ParseGoauth(Format(rec, d.value)).Ok?
            && Verify(prims, ParseGoauth(Format(rec, d.value)).value, pw) == Ok(true)
  {
    var rec := GoauthFromPassword(Some(pw), salt, hmac, iterations, keylen).value;
    var d := CurrentDigest(prims, rec);
    assert d == Hash(prims, rec, None) && d.Ok? && |d.value| == keylen;
    GoauthRoundTrip(rec, d.value);
  }

  /** A parsed record holds no password, so checking the empty password
      falls back to hashing nothing: a TypeError, never an answer. */
  lemma EmptyCandidateOnParsedRecord(prims: Primitives, rec: Record)
    requires rec.password.None?
    ensures Verify(prims, rec, []) == Err(TypeError)
  {
  }

  lemma UnknownTagBody()
    ensures Split("5$garbage", '$') == ["5", "garbage"]
  {
    var tag, rest := "5", "garbage";
    assert '$' !in tag && '$' !in rest;
    assert "5$garbage" == tag + ['$'] + rest;
    SplitTwo(tag, '$', rest);
  }

  lemma UnknownTagFields()
    ensures LegacyFields("$5$garbage") == ["5", "garbage"]
  {
    var s := "$5$garbage";
    var body := "5$garbage";
    SplitWithoutSep(s, ':');
    assert s == ['$'] + body;
    StripOneLeading(body, '$');
    UnknownTagBody();
  }

  /** A legacy record whose first field is a number other than 6 and 7 is
      rejected, whatever follows it; so is the example "$5$garbage". */
  lemma RejectsUnknownTag(s: string)
    ensures var parts := LegacyFields(s);
            (|parts| > 0 && ParseInt(parts[0]).Ok? && ParseInt(parts[0]).value != 6
             && ParseInt(parts[0]).value != 7) ==> ParseLegacy(s).Err?
    ensures ParseLegacy("$5$garbage").Err?
  {
    RejectsGarbage();
  }

  lemma RejectsGarbage()
    ensures ParseLegacy("$5$garbage").Err?
  {
    UnknownTagFields();
  }

  /** "hunter1" */
  const Hunter1: Bytes := [104, 117, 110, 116, 101, 114, 49]

  /** "hunter2" */
  const Hunter2: Bytes := [104, 117, 110, 116, 101, 114, 50]

  lemma Numerals()
    ensures NatToString(7) == "7" && NatToString(101) == "101"
  {
    assert NatToString(10) == "10";
  }

  /** PBKDF2 with any twelve-byte salt and 101 iterations: the serialised
      record carries tag 7 and iteration field 101, and it verifies
      "hunter1". */
  lemma Hunter1Example(prims: Primitives, salt: Bytes)
    requires WellFormed(prims) && |salt| == 12
    ensures var rec := LegacyFromPassword(Some(Hunter1), salt, "pbkdf2", 101);
            && rec.Ok?
            && var d := CurrentDigest(prims, rec.value);
            && d.Ok?
            && var fields := LegacyFields(Format(rec.value, d.value));
            && |fields| == 4 && fields[0] == "7" && fields[1] == "101"
            && ParseLegacy(Format(rec.value, d.value)).Ok?
            && Verify(prims, ParseLegacy(Format(rec.value, d.value)).value, Hunter1) == Ok(true)
  {
    var rec := LegacyFromPassword(Some(Hunter1), salt, "pbkdf2", 101);
    assert rec.Ok? && rec.value.algo == Pbkdf2 && rec.value.iterations == 101;
    LegacyDeriveVerify(prims, Hunter1, salt, "pbkdf2", 101);
    var d := CurrentDigest(prims, rec.value);
    LegacyFieldsOfFormat(rec.value, d.value);
    Numerals();
  }

  /** The same record does not verify "hunter2", as long as the two
      passwords hash differently under the record's salt. The hash is a
      parameter here, so that is all the model can promise. */
  lemma Hunter2Rejected(prims: Primitives, salt: Bytes)
    requires WellFormed(prims) && |salt| == 12
    ensures var rec := LegacyFromPassword(Some(Hunter1), salt, "pbkdf2", 101);
            && rec.Ok?
            && var d := CurrentDigest(prims, rec.value);
            && d.Ok?
            && ParseLegacy(Format(rec.value, d.value)).Ok?
            && (prims.pbkdf2(HmacSha512, Hunter2, salt, 101, 64) != prims.pbkdf2(HmacSha512, Hunter1, salt, 101, 64)
                ==> Verify(prims, ParseLegacy(Format(rec.value, d.value)).value, Hunter2) == Ok(false))
  {
    var rec := LegacyFromPassword(Some(Hunter1), salt, "pbkdf2", 101);
    assert rec.Ok? && rec.value.algo == Pbkdf2 && rec.value.iterations == 101;
    var d := CurrentDigest(prims, rec.value);
    assert d == Ok(prims.pbkdf2(HmacSha512, Hunter1, salt, 101, 64));
    LegacyRoundTrip(rec.value, d.value);
  }
}
