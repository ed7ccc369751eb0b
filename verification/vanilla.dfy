/** The execution module for plain Mosquitto: users in the colon-delimited
    password file, hashes in the broker's `$6$`/`$7$` format. */
module Vanilla {
  import opened Outcomes
  import opened Text
  import opened Base64
  import opened Password
  import opened PwFile

  const DefaultPwFile := "/etc/mosquitto/passwd"
  const NoSecretMessage := "You need to specify either password or password_hash."
  const InvalidUsernameMessage :=
    "Username is invalid. Make sure it does not contain a colon or control characters."
  const NoUserOrHashMessage := "You need to specify either username (+ pw_file) or pw_hash."

  function ExistsMessage(username: string): string {
    "User " + username + " exists. To update the password, set update=True."
  }

  function UnknownUserMessage(username: string): string {
    "User " + username + " does not exist."
  }

  // ---------------------------------------------------------------------
  // _validate_username
  // ---------------------------------------------------------------------

  /** The characters the pattern's look-ahead refuses: C0 controls, DEL and
      the Unicode line and paragraph separators. */
  predicate Forbidden(ch: char) {
    ch as int <= 0x1F || ch as int == 0x7F || ch as int == 0x2028 || ch as int == 0x2029
  }

  /** How far the starred group advances from the start of the string: the
      run of characters that are not forbidden. */
  function AllowedRun(s: string): (n: nat)
    ensures n <= |s|
    ensures forall k :: 0 <= k < n ==> !Forbidden(s[k])
    ensures n < |s| ==> Forbidden(s[n])
    decreases |s|
  {
    if |s| == 0 || Forbidden(s[0]) then 0 else 1 + AllowedRun(s[1..])
  }

  /** `$` without the multi-line flag matches at the end of the string and
      just before a newline that ends it. */
  predicate EndAnchor(s: string, p: nat) {
    p == |s| || (p + 1 == |s| && s[p] == '\n')
  }

  /** _validate_username: at most 65536 characters, then the anchored match.
      Stopping the starred group earlier never helps `$`, because a final
      newline is itself forbidden, so the longest run decides. */
  function ValidateUsername(username: string): bool {
    if |username| > 65536 then false else EndAnchor(username, AllowedRun(username))
  }

  /** The validator accepts exactly the strings of at most 65536 characters
      with no forbidden character, except that one final newline is let
      through. Colons are not refused. */
  lemma ValidateUsernameSpec(u: string)
    ensures ValidateUsername(u) <==>
      && |u| <= 65536
      && ((forall k :: 0 <= k < |u| ==> !Forbidden(u[k]))
          || (|u| > 0 && u[|u| - 1] == '\n' && forall k :: 0 <= k < |u| - 1 ==> !Forbidden(u[k])))
  {
    var n := AllowedRun(u);
    if |u| > 0 && u[|u| - 1] == '\n' && (forall k :: 0 <= k < |u| - 1 ==> !Forbidden(u[k])) {
      assert Forbidden(u[|u| - 1]);
    }
  }

  lemma AcceptsColon()
    ensures ValidateUsername("a:b")
  {
    ValidateUsernameSpec("a:b");
  }

  lemma AcceptsFinalNewline()
    ensures ValidateUsername("bob\n")
    ensures !ValidateUsername("bo\nb") && !ValidateUsername("a\tb")
  {
    ValidateUsernameSpec("bob\n");
    ValidateUsernameSpec("bo\nb");
    ValidateUsernameSpec("a\tb");
    assert "bo\nb"[2] == '\n';
    assert "a\tb"[1] == '\t';
  }

  // ---------------------------------------------------------------------
  // get_pw_hash
  // ---------------------------------------------------------------------

  /** What get_pw_hash returns for a given random salt: the legacy record
      (tag 7 with PBKDF2, tag 6 with SHA-512) as a string. */
  function PwHash(prims: Primitives, salt: Bytes, password: Option<Bytes>, pbkdf2: bool,
                  iterations: int): (r: Result<string>)
    ensures r.Err? ==> r.error.CommandExecutionError?
                       || (pbkdf2 && iterations > IntMax && r.error == OverflowError(IterationsTooGreatMessage))
  {
    var rec := LegacyFromPassword(password, salt, if pbkdf2 then "pbkdf2" else "sha512", iterations);
    if rec.Err? then Err(AsCommandError(rec.error))
    else
      match CurrentDigest(prims, rec.value)
      case Err(e) => Err(e)
      case Ok(d) => Ok(Format(rec.value, d))
  }

  /** get_pw_hash: build the record, then serialise it. */
  method GetPwHash(prims: Primitives, salt: Bytes, password: Option<Bytes>, pbkdf2: bool := true,
                   iterations: int := 101) returns (r: Result<string>)
    ensures r == PwHash(prims, salt, password, pbkdf2, iterations)
  {
    var rec := LegacyFromPassword(password, salt, if pbkdf2 then "pbkdf2" else "sha512", iterations);
    if rec.Err? {
      return Err(AsCommandError(rec.error));
    }
    var pw := new PasswordRecord(rec.value);
    r := pw.ToString(prims);
  }

  // ---------------------------------------------------------------------
  // add_user, rm_user, user_exists, check_password
  // ---------------------------------------------------------------------

  /** The map add_user writes back, or the first error it raises. A hash
      that is given and non-empty wins over the password. */
  function AddUserPlan(files: map<string, FileContent>, prims: Primitives, salt: Bytes,
                       username: string, password: Option<Bytes>, passwordHash: Option<string>,
                       update: bool, pwFile: string): Result<map<string, string>>
  {
    if password.None? && passwordHash.None? then Err(SaltInvocationError(NoSecretMessage))
    else
      var listing := ReadSpec(files, pwFile, true);
      if listing.Err? then Err(listing.error)
      else
        var users := listing.value.entries;
        if username in users && !update then Err(CommandExecutionError(ExistsMessage(username)))
        else if !ValidateUsername(username) then Err(CommandExecutionError(InvalidUsernameMessage))
        else
          var hash := if passwordHash.Some? && passwordHash.value != "" then Ok(passwordHash.value)
                      else PwHash(prims, salt, password, true, 101);
          if hash.Err? then Err(hash.error) else Ok(users[username := hash.value])
  }

  /** The files after writing `plan` back to `pwFile`, or unchanged. */
  ghost function Written(files: map<string, FileContent>, pwFile: string,
                         plan: Result<map<string, string>>): map<string, FileContent> {
    if plan.Err? then files else files[pwFile := Plain(Render(SortedKeys(plan.value.Keys), plan.value))]
  }

  /** add_user. `salt` stands for the random bytes the hash would draw. */
  method AddUser(fs: FileSystem, prims: Primitives, salt: Bytes, username: string,
                 password: Option<Bytes>, passwordHash: Option<string>, update: bool,
                 pwFile: string := DefaultPwFile) returns (r: Result<bool>)
    modifies fs
    ensures var plan := AddUserPlan(old(fs.files), prims, salt, username, password, passwordHash, update, pwFile);
            && r == (if plan.Err? then Err(plan.error) else Ok(true))
            && fs.files == Written(old(fs.files), pwFile, plan)
  {
    if password.None? && passwordHash.None? {
      return Err(SaltInvocationError(NoSecretMessage));
    }
    var listing := ReadPwFile(fs, pwFile, true);
    if listing.Err? {
      return Err(listing.error);
    }
    var users := listing.value.entries;
    if username in users && !update {
      return Err(CommandExecutionError(ExistsMessage(username)));
    }
    if !ValidateUsername(username) {
      return Err(CommandExecutionError(InvalidUsernameMessage));
    }
    var hash: string;
    if passwordHash.Some? && passwordHash.value != "" {
      hash := passwordHash.value;
    } else {
      var generated := GetPwHash(prims, salt, password);
      if generated.Err? {
        return Err(generated.error);
      }
      hash := generated.value;
    }
    users := users[username := hash];
    r := WritePwFile(fs, pwFile, users);
  }

  /** The map rm_user writes back, or the first error it raises. */
  function RmUserPlan(files: map<string, FileContent>, username: string, pwFile: string): Result<map<string, string>> {
    var listing := ReadSpec(files, pwFile, true);
    if listing.Err? then Err(listing.error)
    else if username !in listing.value.entries then Err(CommandExecutionError(UnknownUserMessage(username)))
    else Ok(listing.value.entries - {username})
  }

  /** rm_user. */
  method RmUser(fs: FileSystem, username: string, pwFile: string := DefaultPwFile) returns (r: Result<bool>)
    modifies fs
    ensures var plan := RmUserPlan(old(fs.files), username, pwFile);
            && r == (if plan.Err? then Err(plan.error) else Ok(true))
            && fs.files == Written(old(fs.files), pwFile, plan)
  {
    var listing := ReadPwFile(fs, pwFile, true);
    if listing.Err? {
      return Err(listing.error);
    }
    var users := listing.value.entries;
    if username !in users {
      return Err(CommandExecutionError(UnknownUserMessage(username)));
    }
    users := users - {username};
    r := WritePwFile(fs, pwFile, users);
  }

  /** user_exists: membership in the listed usernames. */
  method UserExists(fs: FileSystem, username: string, pwFile: string := DefaultPwFile) returns (r: Result<bool>)
    ensures var listing := ReadSpec(fs.files, pwFile, false);
            && (listing.Err? ==> r == Err(listing.error))
            && (listing.Ok? ==> r == Ok(username in listing.value.names))
  {
    var listing := ReadPwFile(fs, pwFile, false);
    if listing.Err? {
      return Err(listing.error);
    }
    r := Ok(username in listing.value.names);
  }

  /** The hash stored for `username`, or why there is none. */
  function StoredHash(files: map<string, FileContent>, username: string, pwFile: string): Result<string> {
    var listing := ReadSpec(files, pwFile, true);
    if listing.Err? then Err(listing.error)
    else if username !in listing.value.entries then Err(CommandExecutionError(UnknownUserMessage(username)))
    else Ok(listing.value.entries[username])
  }

  /** What check_password answers: a username, when given, overrides the
      hash; the hash is parsed in the legacy format and checked. */
  function CheckPasswordSpec(files: map<string, FileContent>, prims: Primitives, password: Bytes,
                             username: Option<string>, pwHash: Option<string>, pwFile: string): Result<bool>
  {
    if username.None? && pwHash.None? then Err(SaltInvocationError(NoUserOrHashMessage))
    else
      var hash := if username.Some? then StoredHash(files, username.value, pwFile) else Ok(pwHash.value);
      if hash.Err? then Err(hash.error)
      else
        var rec := ParseLegacy(hash.value);
        if rec.Err? then Err(rec.error) else Verify(prims, rec.value, password)
  }

  /** check_password. */
  method CheckPassword(fs: FileSystem, prims: Primitives, password: Bytes, username: Option<string>,
                       pwHash: Option<string>, pwFile: string := DefaultPwFile) returns (r: Result<bool>)
    ensures r == CheckPasswordSpec(fs.files, prims, password, username, pwHash, pwFile)
  {
    if username.None? && pwHash.None? {
      return Err(SaltInvocationError(NoUserOrHashMessage));
    }
    var hash: string;
    if username.Some? {
      var listing := ReadPwFile(fs, pwFile, true);
      if listing.Err? {
        return Err(listing.error);
      }
      if username.value !in listing.value.entries {
        return Err(CommandExecutionError(UnknownUserMessage(username.value)));
      }
      hash := listing.value.entries[username.value];
    } else {
      hash := pwHash.value;
    }
    var rec := ParseLegacy(hash);
    if rec.Err? {
      return Err(rec.error);
    }
    var pw := new PasswordRecord(rec.value);
    r := pw.CheckPassword(prims, password);
  }
}
