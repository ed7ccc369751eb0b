/** What the plain Mosquitto module promises across calls: generated
    hashes check, additions and removals touch one entry, and the file
    stays readable. */
module VanillaLaws {
  import opened Outcomes
  import opened Text
  import opened Base64
  import opened Password
  import opened PasswordLaws
  import opened PwFile
  import opened Vanilla

  /** A generated hash parses back in the legacy format with the chosen
      algorithm, checks the password it came from, and fits on one line of
      the password file. */
  lemma PwHashVerifies(prims: Primitives, salt: Bytes, pw: Bytes, pbkdf2: bool, iterations: int)
    requires WellFormed(prims) && |pw| > 0
    requires PwHash(prims, salt, Some(pw), pbkdf2, iterations).Ok?
    ensures var h := PwHash(prims, salt, Some(pw), pbkdf2, iterations).value;
            && ParseLegacy(h).Ok?
            && ParseLegacy(h).value.algo == (if pbkdf2 then Pbkdf2 else Sha512)
            && Verify(prims, ParseLegacy(h).value, pw) == Ok(true)
            && ':' !in h && !HasLineBreak(h)
  {
    var algo := if pbkdf2 then "pbkdf2" else "sha512";
    var rec := LegacyFromPassword(Some(pw), salt, algo, iterations).value;
    var d := CurrentDigest(prims, rec).value;
    LegacyDeriveVerify(prims, pw, salt, algo, iterations);
    LegacyRoundTrip(rec, d);
    FormatIsFileSafe(rec, d);
  }

  /** The constructor's checks surface as CommandExecutionErrors, in the
      constructor's order; an iteration count above INT_MAX passes them and
      escapes from hashlib as an OverflowError. The salt-length failure is
      reachable only through the salt parameter: get_pw_hash always draws
      12 bytes. */
  lemma PwHashErrors(prims: Primitives, salt: Bytes, password: Option<Bytes>, pbkdf2: bool, iterations: int)
    ensures |salt| != 12 ==>
      PwHash(prims, salt, password, pbkdf2, iterations) == Err(CommandExecutionError(SaltMessage))
    ensures |salt| == 12 && password.Some? && |password.value| > 65500 ==>
      PwHash(prims, salt, password, pbkdf2, iterations) == Err(CommandExecutionError(LengthMessage))
    ensures |salt| == 12 && (password.Some? ==> |password.value| <= 65500) && iterations < 1 ==>
      PwHash(prims, salt, password, pbkdf2, iterations) == Err(CommandExecutionError(IterationsMessage))
    ensures |salt| == 12 && iterations >= 1 && password.None? ==>
      PwHash(prims, salt, password, pbkdf2, iterations) == Err(CommandExecutionError(MissingMessage))
    ensures (|salt| == 12 && password.Some? && |password.value| <= 65500 && pbkdf2
             && iterations > IntMax) ==>
      PwHash(prims, salt, password, pbkdf2, iterations) == Err(OverflowError(IterationsTooGreatMessage))
  {
  }

  /** add_user refuses before writing: without any secret, and for an
      existing user without `update` (even when the name is invalid). */
  lemma AddUserRejects(files: map<string, FileContent>, prims: Primitives, salt: Bytes, username: string,
                       password: Option<Bytes>, passwordHash: Option<string>, update: bool, pwFile: string)
    ensures password.None? && passwordHash.None? ==>
      AddUserPlan(files, prims, salt, username, password, passwordHash, update, pwFile)
        == Err(SaltInvocationError(NoSecretMessage))
    ensures (password.Some? || passwordHash.Some?) && !update
            && ReadSpec(files, pwFile, true).Ok? && username in ReadSpec(files, pwFile, true).value.entries ==>
      AddUserPlan(files, prims, salt, username, password, passwordHash, update, pwFile)
        == Err(CommandExecutionError(ExistsMessage(username)))
    ensures (password.Some? || passwordHash.Some?) && ReadSpec(files, pwFile, true).Err? ==>
      AddUserPlan(files, prims, salt, username, password, passwordHash, update, pwFile)
        == Err(ReadSpec(files, pwFile, true).error)
  {
  }

  /** A successful add_user sets exactly the one entry: to the given hash
      when it is non-empty, else to a generated one; every other entry is
      kept. */
  lemma AddUserSetsOneEntry(files: map<string, FileContent>, prims: Primitives, salt: Bytes, username: string,
                            password: Option<Bytes>, passwordHash: Option<string>, update: bool, pwFile: string)
    requires AddUserPlan(files, prims, salt, username, password, passwordHash, update, pwFile).Ok?
    ensures ReadSpec(files, pwFile, true).Ok?
    ensures var before := ReadSpec(files, pwFile, true).value.entries;
            var after := AddUserPlan(files, prims, salt, username, password, passwordHash, update, pwFile).value;
            && ValidateUsername(username)
            && (username in before ==> update)
            && after.Keys == before.Keys + {username}
            && (forall u :: u in before && u != username ==> after[u] == before[u])
            && after[username] == (if passwordHash.Some? && passwordHash.value != "" then passwordHash.value
                                   else PwHash(prims, salt, password, true, 101).value)
  {
  }

  /** A map that can be written stays so after one more clean entry or one
      entry fewer. */
  lemma WritableUpdate(m: map<string, string>, u: string, h: string)
    requires Writable(m) && ':' !in u && ':' !in h && !HasLineBreak(u) && !HasLineBreak(h)
    ensures Writable(m[u := h]) && Writable(m - {u})
  {
  }

  /** After a successful add_user with a name and hash free of colons and
      line boundaries, the file reads back as exactly the planned map. */
  lemma AddUserThenRead(files: map<string, FileContent>, prims: Primitives, salt: Bytes, username: string,
                        password: Option<Bytes>, passwordHash: Option<string>, update: bool, pwFile: string)
    requires AddUserPlan(files, prims, salt, username, password, passwordHash, update, pwFile).Ok?
    requires ':' !in username && !HasLineBreak(username)
    requires var h := AddUserPlan(files, prims, salt, username, password, passwordHash, update, pwFile).value[username];
             ':' !in h && !HasLineBreak(h)
    ensures var plan := AddUserPlan(files, prims, salt, username, password, passwordHash, update, pwFile);
            ReadSpec(Written(files, pwFile, plan), pwFile, true) == Ok(Entries(plan.value))
  {
    var plan := AddUserPlan(files, prims, salt, username, password, passwordHash, update, pwFile);
    var before := ReadSpec(files, pwFile, true).value.entries;
    ReadIsWritable(files, pwFile);
    WritableUpdate(before, username, plan.value[username]);
    ReadAfterWrite(files, pwFile, plan.value);
  }

  /** Adding a user with a password, then checking that password by
      username, answers true. */
  lemma CheckPasswordAfterAdd(files: map<string, FileContent>, prims: Primitives, salt: Bytes, username: string,
                              pw: Bytes, update: bool, pwFile: string)
    requires WellFormed(prims) && |pw| > 0
    requires AddUserPlan(files, prims, salt, username, Some(pw), None, update, pwFile).Ok?
    requires ':' !in username && !HasLineBreak(username)
    ensures var after := Written(files, pwFile, AddUserPlan(files, prims, salt, username, Some(pw), None, update, pwFile));
            CheckPasswordSpec(after, prims, pw, Some(username), None, pwFile) == Ok(true)
  {
    var plan := AddUserPlan(files, prims, salt, username, Some(pw), None, update, pwFile);
    PlanWithPassword(files, prims, salt, username, pw, update, pwFile);
    var h := PwHash(prims, salt, Some(pw), true, 101).value;
    PwHashVerifies(prims, salt, pw, true, 101);
    AddUserThenRead(files, prims, salt, username, Some(pw), None, update, pwFile);
    CheckByStoredHash(Written(files, pwFile, plan), prims, pw, username, pwFile, plan.value);
  }

  /** With a password and no hash, add_user stores the hash get_pw_hash
      makes with its defaults. */
  lemma PlanWithPassword(files: map<string, FileContent>, prims: Primitives, salt: Bytes, username: string,
                         pw: Bytes, update: bool, pwFile: string)
    requires AddUserPlan(files, prims, salt, username, Some(pw), None, update, pwFile).Ok?
    ensures PwHash(prims, salt, Some(pw), true, 101).Ok?
    ensures AddUserPlan(files, prims, salt, username, Some(pw), None, update, pwFile).value
            == ReadSpec(files, pwFile, true).value.entries[username := PwHash(prims, salt, Some(pw), true, 101).value]
  {
  }

  /** check_password by username verifies against the hash the file holds. */
  lemma CheckByStoredHash(files: map<string, FileContent>, prims: Primitives, pw: Bytes, username: string,
                          pwFile: string, entries: map<string, string>)
    requires ReadSpec(files, pwFile, true) == Ok(Entries(entries))
    requires username in entries && ParseLegacy(entries[username]).Ok?
    ensures CheckPasswordSpec(files, prims, pw, Some(username), None, pwFile)
            == Verify(prims, ParseLegacy(entries[username]).value, pw)
  {
  }

  /** A successful rm_user leaves the file reading as the old map without
      that user, who then no longer exists. */
  lemma RmUserThenRead(files: map<string, FileContent>, username: string, pwFile: string)
    requires RmUserPlan(files, username, pwFile).Ok?
    ensures var after := Written(files, pwFile, RmUserPlan(files, username, pwFile));
            && ReadSpec(after, pwFile, true) == Ok(Entries(ReadSpec(files, pwFile, true).value.entries - {username}))
            && ReadSpec(after, pwFile, false).Ok?
            && username !in ReadSpec(after, pwFile, false).value.names
  {
    var plan := RmUserPlan(files, username, pwFile);
    ReadIsWritable(files, pwFile);
    ReadAfterWrite(files, pwFile, plan.value);
  }

  /** Removing a user that add_user has just created restores the map the
      file held before. */
  lemma RmUndoesAdd(files: map<string, FileContent>, prims: Primitives, salt: Bytes, username: string,
                    password: Option<Bytes>, passwordHash: Option<string>, update: bool, pwFile: string)
    requires AddUserPlan(files, prims, salt, username, password, passwordHash, update, pwFile).Ok?
    requires username !in ReadSpec(files, pwFile, true).value.entries
    requires ':' !in username && !HasLineBreak(username)
    requires var h := AddUserPlan(files, prims, salt, username, password, passwordHash, update, pwFile).value[username];
             ':' !in h && !HasLineBreak(h)
    ensures var after := Written(files, pwFile, AddUserPlan(files, prims, salt, username, password, passwordHash, update, pwFile));
            RmUserPlan(after, username, pwFile) == Ok(ReadSpec(files, pwFile, true).value.entries)
  {
    var plan := AddUserPlan(files, prims, salt, username, password, passwordHash, update, pwFile);
    var before := ReadSpec(files, pwFile, true).value.entries;
    var after := Written(files, pwFile, plan);
    assert ReadSpec(after, pwFile, true) == Ok(Entries(plan.value)) by {
      AddUserThenRead(files, prims, salt, username, password, passwordHash, update, pwFile);
    }
    assert plan.value == before[username := plan.value[username]] by {
      AddUserSetsOneEntry(files, prims, salt, username, password, passwordHash, update, pwFile);
    }
    UpdateThenRemove(before, username, plan.value[username]);
  }

  lemma UpdateThenRemove(m: map<string, string>, k: string, v: string)
    requires k !in m
    ensures m[k := v] - {k} == m
  {
  }

  /** user_exists agrees with the map of entries, and both listings fail
      or succeed together. */
  lemma UserExistsIffEntry(files: map<string, FileContent>, username: string, pwFile: string)
    ensures ReadSpec(files, pwFile, false).Ok? <==> ReadSpec(files, pwFile, true).Ok?
    ensures ReadSpec(files, pwFile, false).Ok? ==>
      (username in ReadSpec(files, pwFile, false).value.names
       <==> username in ReadSpec(files, pwFile, true).value.entries)
  {
    if ReadSpec(files, pwFile, false).Ok? {
      NamesMatchEntries(SplitLines(files[pwFile].text));
    }
  }

  /** A given username makes check_password ignore the hash argument. */
  lemma UsernameOverridesHash(files: map<string, FileContent>, prims: Primitives, password: Bytes,
                              username: string, h1: Option<string>, h2: Option<string>, pwFile: string)
    ensures CheckPasswordSpec(files, prims, password, Some(username), h1, pwFile)
         == CheckPasswordSpec(files, prims, password, Some(username), h2, pwFile)
  {
  }

  /** The line written for user `a:b` with hash `h` holds three fields. */
  lemma ColonLine()
    ensures Render(SortedKeys({"a:b"}), map["a:b" := "h"]) == "a:b:h\n"
    ensures SplitLines("a:b:h\n") == ["a:b:h"]
    ensures !LineParses("a:b:h")
  {
    ColonRender();
    ColonLines();
    SplitSpec("a:b:h", ':');
  }

  lemma ColonRender()
    ensures Render(SortedKeys({"a:b"}), map["a:b" := "h"]) == "a:b:h\n"
  {
    LexLeTotal("a:b", "a:b");
    SortedKeysUnfold({"a:b"}, "a:b");
    assert {"a:b"} - {"a:b"} == {};
  }

  lemma ColonLines()
    ensures SplitLines("a:b:h\n") == ["a:b:h"]
  {
    assert !HasLineBreak("a:b:h") by {
      forall k | 0 <= k < 5 ensures !IsLineBreak("a:b:h"[k]) { }
    }
    SplitLinesCons("a:b:h", "");
    assert "a:b:h" + "\n" + "" == "a:b:h\n";
  }

  /** A colon passes the username check, and the line then written no
      longer splits into two parts: every later read of the file fails. */
  lemma ColonUsernameBreaksFile(files: map<string, FileContent>, prims: Primitives, salt: Bytes, pwFile: string)
    requires pwFile in files && files[pwFile] == Plain("")
    ensures var plan := AddUserPlan(files, prims, salt, "a:b", None, Some("h"), false, pwFile);
            && plan == Ok(map["a:b" := "h"])
            && ReadSpec(Written(files, pwFile, plan), pwFile, true)
               == Err(CommandExecutionError(ParseFailureMessage(pwFile)))
  {
    var plan := AddUserPlan(files, prims, salt, "a:b", None, Some("h"), false, pwFile);
    ColonPlan(files, prims, salt, pwFile);
    var after := Written(files, pwFile, plan);
    assert after[pwFile] == Plain("a:b:h\n") by {
      ColonRender();
    }
    ColonLine();
    ColonFileFails(after, pwFile);
  }

  lemma ColonPlan(files: map<string, FileContent>, prims: Primitives, salt: Bytes, pwFile: string)
    requires pwFile in files && files[pwFile] == Plain("")
    ensures AddUserPlan(files, prims, salt, "a:b", None, Some("h"), false, pwFile) == Ok(map["a:b" := "h"])
  {
    assert ReadSpec(files, pwFile, true) == Ok(Entries(map[])) by {
      assert SplitLines("") == [];
    }
    AcceptsColon();
  }

  lemma ColonFileFails(files: map<string, FileContent>, pwFile: string)
    requires pwFile in files && files[pwFile] == Plain("a:b:h\n")
    requires SplitLines("a:b:h\n") == ["a:b:h"] && !LineParses("a:b:h")
    ensures ReadSpec(files, pwFile, true) == Err(CommandExecutionError(ParseFailureMessage(pwFile)))
  {
    assert !AllParse(["a:b:h"]) by { assert ["a:b:h"][0] == "a:b:h"; }
  }
}
