/** What the go-auth module promises across calls: the backend choice is
    made once per path, both backends honour the same add/rm contract, and
    a user added with a password checks with it. */
module GoauthLaws {
  import opened Outcomes
  import opened Text
  import opened Base64
  import opened Password
  import opened PasswordLaws
  import opened PwFile
  import opened Goauth

  /** Once a path's signature is cached, later selections ignore what the
      file holds by then: the backend stays the one first chosen. */
  lemma BackendCachedPerPath(cache: map<string, bool>, files: map<string, FileContent>,
                             later: map<string, FileContent>, path: string, other: string)
    requires path in files && path in later
    ensures SelectedBackend(CacheAfter(cache, files, path), later, path) == SelectedBackend(cache, files, path)
    ensures other != path ==> (ContextKey(other) in CacheAfter(cache, files, path) <==> ContextKey(other) in cache)
  {
    ContextKeyInjective(other, path);
  }

  /** A file too short to hold the signature is never taken for a
      database. */
  lemma ShortFileIsPlain(cache: map<string, bool>, files: map<string, FileContent>, path: string)
    requires path in files && files[path].Plain? && |files[path].text| < 16
    requires ContextKey(path) !in cache
    ensures SelectedBackend(cache, files, path) == Ok(FileBackend)
  {
  }

  /** `add` refuses an existing user unless asked to update, and `rm`
      refuses a missing one; neither then changes anything. */
  lemma AddRmRefuse(files: map<string, FileContent>, backend: Backend, path: string, hasSqlite3: bool,
                    username: string, hash: string, update: bool)
    ensures ExistsSpec(files, backend, path, hasSqlite3, username) == Ok(true) && !update ==>
      AddSpec(files, backend, path, hasSqlite3, username, hash, update)
        == Err(CommandExecutionError(ExistsMessage(username)))
    ensures ExistsSpec(files, backend, path, hasSqlite3, username) == Ok(false) ==>
      RmSpec(files, backend, path, hasSqlite3, username)
        == Err(CommandExecutionError(UnknownUsernameMessage(username)))
  {
  }

  /** get_password refuses an unknown user in both backends. */
  lemma GetPasswordAbsent(files: map<string, FileContent>, backend: Backend, path: string, hasSqlite3: bool,
                          username: string)
    requires ExistsSpec(files, backend, path, hasSqlite3, username) == Ok(false)
    ensures PasswordSpec(files, backend, path, hasSqlite3, username)
         == Err(CommandExecutionError(UnknownUserMessage(username)))
  {
    if backend == FileBackend {
      UserNamesAndMap(files, path, username);
    }
  }

  /** Listing names or the whole map of a password file agree on who
      exists. */
  lemma UserNamesAndMap(files: map<string, FileContent>, path: string, username: string)
    requires ReadSpec(files, path, false).Ok?
    ensures ReadSpec(files, path, true).Ok?
    ensures username in ReadSpec(files, path, false).value.names
        <==> username in ReadSpec(files, path, true).value.entries
  {
    NamesMatchEntries(SplitLines(files[path].text));
  }

  /** The database keeps `is_admin` of an updated user, makes a new user
      no admin, and leaves every other row alone. */
  lemma SqliteAddKeepsAdmin(files: map<string, FileContent>, path: string, hasSqlite3: bool,
                            username: string, hash: string, update: bool)
    requires AddSpec(files, SqliteBackend, path, hasSqlite3, username, hash, update).Ok?
    ensures var before := Table(files, path, hasSqlite3).value;
            var after := AddSpec(files, SqliteBackend, path, hasSqlite3, username, hash, update).value;
            && after.WriteTable?
            && after.rows.Keys == before.Keys + {username}
            && after.rows[username].passwordHash == hash
            && after.rows[username].isAdmin == (username in before && before[username].isAdmin)
            && (forall u :: u in before && u != username ==> after.rows[u] == before[u])
  {
  }

  /** After a successful `add`, in either backend, the user exists and has
      the new hash, and every other user keeps theirs. The password file
      needs a name and hash it can carry. */
  lemma AddThenLookup(files: map<string, FileContent>, backend: Backend, path: string, hasSqlite3: bool,
                      username: string, hash: string, update: bool, other: string)
    requires AddSpec(files, backend, path, hasSqlite3, username, hash, update).Ok?
    requires backend == FileBackend ==>
      ':' !in username && !HasLineBreak(username) && ':' !in hash && !HasLineBreak(hash)
    ensures var after := Applied(files, path, AddSpec(files, backend, path, hasSqlite3, username, hash, update));
            && ExistsSpec(after, backend, path, hasSqlite3, username) == Ok(true)
            && PasswordSpec(after, backend, path, hasSqlite3, username) == Ok(hash)
            && (other != username ==>
                  PasswordSpec(after, backend, path, hasSqlite3, other)
                  == PasswordSpec(files, backend, path, hasSqlite3, other))
  {
    var plan := AddSpec(files, backend, path, hasSqlite3, username, hash, update);
    var after := Applied(files, path, plan);
    if backend == FileBackend {
      var m := plan.value.entries;
      assert ReadSpec(after, path, true) == Ok(Entries(m)) by {
        ReadIsWritable(files, path);
        ReadAfterWrite(files, path, m);
      }
      UserNamesAndMap(after, path, username);
    }
  }

  /** After a successful `rm`, in either backend, the user is gone and
      every other user keeps their hash. */
  lemma RmThenGone(files: map<string, FileContent>, backend: Backend, path: string, hasSqlite3: bool,
                   username: string, other: string)
    requires RmSpec(files, backend, path, hasSqlite3, username).Ok?
    ensures var after := Applied(files, path, RmSpec(files, backend, path, hasSqlite3, username));
            && ExistsSpec(after, backend, path, hasSqlite3, username) == Ok(false)
            && (other != username ==>
                  PasswordSpec(after, backend, path, hasSqlite3, other)
                  == PasswordSpec(files, backend, path, hasSqlite3, other))
  {
    var plan := RmSpec(files, backend, path, hasSqlite3, username);
    var after := Applied(files, path, plan);
    if backend == FileBackend {
      var m := plan.value.entries;
      assert ReadSpec(after, path, true) == Ok(Entries(m)) by {
        ReadIsWritable(files, path);
        ReadAfterWrite(files, path, m);
      }
      UserNamesAndMap(after, path, username);
    }
  }

  /** A generated go-auth hash parses back, checks the password it came
      from, and fits on one line of the password file. */
  lemma PwHashVerifies(prims: Primitives, salt: Bytes, pw: Bytes, iterations: int, hmac: string, keylen: int)
    requires WellFormed(prims) && |pw| > 0 && keylen >= 1
    requires PwHash(prims, salt, Some(pw), iterations, hmac, keylen).Ok?
    ensures var h := PwHash(prims, salt, Some(pw), iterations, hmac, keylen).value;
            && ParseGoauth(h).Ok?
            && ParseGoauth(h).value.keylen == keylen
            && Verify(prims, ParseGoauth(h).value, pw) == Ok(true)
            && ':' !in h && !HasLineBreak(h)
  {
    var rec := GoauthFromPassword(Some(pw), salt, hmac, iterations, keylen).value;
    var d := CurrentDigest(prims, rec).value;
    GoauthDeriveVerify(prims, pw, salt, hmac, iterations, keylen);
    GoauthRoundTrip(rec, d);
    FormatIsFileSafe(rec, d);
  }

  /** A key length or iteration count the constructor accepts but hashlib
      does not fails in hashing, outside the conversion to
      CommandExecutionError: an iteration count above INT_MAX first, then a
      non-positive key length, then one above INT_MAX. */
  lemma PwHashKeyLength(prims: Primitives, salt: Bytes, pw: Bytes, iterations: int, keylen: int)
    requires iterations >= 1
    ensures iterations > IntMax ==>
      PwHash(prims, salt, Some(pw), iterations, "sha512", keylen) == Err(OverflowError(IterationsTooGreatMessage))
    ensures iterations <= IntMax && keylen < 1 ==>
      PwHash(prims, salt, Some(pw), iterations, "sha512", keylen) == Err(ValueError(KeyLengthMessage))
    ensures iterations <= IntMax && keylen > IntMax ==>
      PwHash(prims, salt, Some(pw), iterations, "sha512", keylen) == Err(OverflowError(KeyLengthTooGreatMessage))
  {
  }

  /** check_password's argument rule: a hash, or a username together with
      a file; a username alone is refused. */
  lemma CheckPasswordArguments(cache: map<string, bool>, files: map<string, FileContent>, prims: Primitives,
                               password: Bytes, username: Option<string>, pwHash: Option<string>,
                               pwFile: Option<string>, hasSqlite3: bool, h1: Option<string>, h2: Option<string>)
    ensures pwHash.None? && pwFile.None? ==>
      CheckPasswordSpec(cache, files, prims, password, username, pwHash, pwFile, hasSqlite3)
        == Err(SaltInvocationError(NoUserOrHashMessage))
    ensures username.Some? && pwFile.Some? ==>
      CheckPasswordSpec(cache, files, prims, password, username, h1, pwFile, hasSqlite3)
        == CheckPasswordSpec(cache, files, prims, password, username, h2, pwFile, hasSqlite3)
  {
  }

  /** add_user with a password and no hash is `add` on the selected
      backend with the default go-auth hash. */
  lemma AddUserWithPassword(cache: map<string, bool>, files: map<string, FileContent>, prims: Primitives,
                            salt: Bytes, username: string, pw: Bytes, update: bool, pwFile: string,
                            hasSqlite3: bool)
    requires AddUserSpec(cache, files, prims, salt, username, Some(pw), None, update, pwFile, hasSqlite3).Ok?
    ensures SelectedBackend(cache, files, pwFile).Ok?
    ensures PwHash(prims, salt, Some(pw), 100000, "sha512", 32).Ok?
    ensures AddUserSpec(cache, files, prims, salt, username, Some(pw), None, update, pwFile, hasSqlite3)
         == AddSpec(files, SelectedBackend(cache, files, pwFile).value, pwFile, hasSqlite3, username,
                    PwHash(prims, salt, Some(pw), 100000, "sha512", 32).value, update)
  {
  }

  /** check_password by username and file verifies against the hash the
      selected backend stores. */
  lemma CheckByStoredHash(cache: map<string, bool>, files: map<string, FileContent>, prims: Primitives,
                          pw: Bytes, username: string, pwFile: string, hasSqlite3: bool,
                          backend: Backend, h: string)
    requires SelectedBackend(cache, files, pwFile) == Ok(backend)
    requires PasswordSpec(files, backend, pwFile, hasSqlite3, username) == Ok(h)
    requires ParseGoauth(h).Ok?
    ensures CheckPasswordSpec(cache, files, prims, pw, Some(username), None, Some(pwFile), hasSqlite3)
         == Verify(prims, ParseGoauth(h).value, pw)
  {
  }

  /** Adding a user with a password, then checking that password by
      username and file, answers true in either backend. */
  lemma CheckPasswordAfterAdd(cache: map<string, bool>, files: map<string, FileContent>, prims: Primitives,
                              salt: Bytes, username: string, pw: Bytes, update: bool, pwFile: string,
                              hasSqlite3: bool)
    requires WellFormed(prims) && |pw| > 0
    requires AddUserSpec(cache, files, prims, salt, username, Some(pw), None, update, pwFile, hasSqlite3).Ok?
    requires SelectedBackend(cache, files, pwFile) == Ok(FileBackend) ==> ':' !in username && !HasLineBreak(username)
    ensures var plan := AddUserSpec(cache, files, prims, salt, username, Some(pw), None, update, pwFile, hasSqlite3);
            CheckPasswordSpec(CacheAfter(cache, files, pwFile), Applied(files, pwFile, plan), prims, pw,
                              Some(username), None, Some(pwFile), hasSqlite3) == Ok(true)
  {
    AddUserWithPassword(cache, files, prims, salt, username, pw, update, pwFile, hasSqlite3);
    var backend := SelectedBackend(cache, files, pwFile).value;
    var h := PwHash(prims, salt, Some(pw), 100000, "sha512", 32).value;
    PwHashVerifies(prims, salt, pw, 100000, "sha512", 32);
    var plan := AddSpec(files, backend, pwFile, hasSqlite3, username, h, update);
    var after := Applied(files, pwFile, plan);
    AddThenLookup(files, backend, pwFile, hasSqlite3, username, h, update, username);
    BackendCachedPerPath(cache, files, after, pwFile, pwFile);
    CheckByStoredHash(CacheAfter(cache, files, pwFile), after, prims, pw, username, pwFile, hasSqlite3, backend, h);
  }
}
