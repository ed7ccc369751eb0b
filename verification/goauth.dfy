/** The execution module for mosquitto-go-auth: users live either in a
    password file or in the `users` table of an SQLite database, told apart
    by the file's 16-byte signature, which is cached per path for the run. */
module Goauth {
  import opened Outcomes
  import opened Text
  import opened Base64
  import opened Password
  import opened PwFile

  const DefaultPwFile := "/etc/mosquitto/passwd"
  /** The first 16 bytes of every SQLite 3 database. */
  const SqliteHeader: string := "SQLite format 3\0"
  const ContextPrefix := "mosquitto_goauth._check_sqlite_file."
  const NoSecretMessage := "You need to specify either password or password_hash."
  const NoUserOrHashMessage := "You need to specify either username + pw_file or pw_hash."
  const Sqlite3Message :=
    "Running this function requires sqlite3 library. Make sure it is importable by Salt."

  function ContextKey(path: string): string {
    ContextPrefix + path
  }

  function PathMissingMessage(path: string): string {
    "Path " + path + " does not exist."
  }

  function ExistsMessage(username: string): string {
    "User " + username + " exists. To update the password, set update=True."
  }

  function UnknownUserMessage(username: string): string {
    "User " + username + " does not exist."
  }

  function UnknownUsernameMessage(username: string): string {
    "Username " + username + " does not exist."
  }

  /** Distinct paths never share a cache entry. */
  lemma ContextKeyInjective(p: string, q: string)
    ensures ContextKey(p) == ContextKey(q) <==> p == q
  {
    if ContextKey(p) == ContextKey(q) {
      assert p == ContextKey(p)[|ContextPrefix|..];
      assert q == ContextKey(q)[|ContextPrefix|..];
    }
  }

  // ---------------------------------------------------------------------
  // _check_sqlite_file and _get_collection
  // ---------------------------------------------------------------------

  /** Whether the first 16 bytes are the SQLite signature; a shorter file
      is not a database. */
  function HasSqliteHeader(c: FileContent): (r: bool)
    ensures c.Plain? && |c.text| < 16 ==> !r
    ensures c.Plain? && r ==> c.text[..16] == SqliteHeader
  {
    match c
    case Sqlite(_) => true
    case Plain(t) => |t| >= 16 && t[..16] == SqliteHeader
  }

  /** Salt's per-run `__context__` dictionary, as far as the signature
      cache uses it. */
  class Context {
    var cache: map<string, bool>

    constructor()
      ensures cache == map[]
    {
      cache := map[];
    }
  }

  /** _check_sqlite_file: a cached answer is returned without looking at
      the file again; otherwise the path must exist and its header decides,
      and the answer is cached. */
  method CheckSqliteFile(ctx: Context, fs: FileSystem, path: string) returns (r: Result<bool>)
    modifies ctx
    ensures ContextKey(path) in old(ctx.cache) ==>
      r == Ok(old(ctx.cache)[ContextKey(path)]) && ctx.cache == old(ctx.cache)
    ensures ContextKey(path) !in old(ctx.cache) && path !in fs.files ==>
      r == Err(CommandExecutionError(PathMissingMessage(path))) && ctx.cache == old(ctx.cache)
    ensures ContextKey(path) !in old(ctx.cache) && path in fs.files ==>
      r == Ok(HasSqliteHeader(fs.files[path]))
      && ctx.cache == old(ctx.cache)[ContextKey(path) := HasSqliteHeader(fs.files[path])]
  {
    var key := ContextKey(path);
    if key !in ctx.cache {
      if path !in fs.files {
        return Err(CommandExecutionError(PathMissingMessage(path)));
      }
      ctx.cache := ctx.cache[key := HasSqliteHeader(fs.files[path])];
    }
    r := Ok(ctx.cache[key]);
  }

  /** Which subclass `_get_collection` instantiates. */
  datatype Backend = FileBackend | SqliteBackend

  /** _get_collection: the SQLite backend exactly when the (cached)
      signature check says so; the collection's constructor then insists
      that the path exists. */
  method GetCollection(ctx: Context, fs: FileSystem, path: string, hasSqlite3: bool)
    returns (r: Result<UserCollection>)
    modifies ctx
    ensures var key := ContextKey(path);
      && (key in old(ctx.cache) ==> ctx.cache == old(ctx.cache))
      && (key !in old(ctx.cache) && path in fs.files ==>
            ctx.cache == old(ctx.cache)[key := HasSqliteHeader(fs.files[path])])
      && (key !in old(ctx.cache) && path !in fs.files ==> ctx.cache == old(ctx.cache))
      && (path !in fs.files ==> r == Err(CommandExecutionError(PathMissingMessage(path))))
      && (path in fs.files ==>
            && r.Ok? && key in ctx.cache
            && r.value.fs == fs && r.value.pwFile == path && r.value.hasSqlite3 == hasSqlite3
            && (r.value.backend == SqliteBackend <==> ctx.cache[key]))
    ensures r.Ok? ==> fresh(r.value)
  {
    var isSqlite := CheckSqliteFile(ctx, fs, path);
    if isSqlite.Err? {
      return Err(isSqlite.error);
    }
    if path !in fs.files {
      return Err(CommandExecutionError(PathMissingMessage(path)));
    }
    var c := new UserCollection(fs, path, if isSqlite.value then SqliteBackend else FileBackend, hasSqlite3);
    r := Ok(c);
  }

  // ---------------------------------------------------------------------
  // What the collections read and write
  // ---------------------------------------------------------------------

  /** The `users` table behind `_cur`: the library must be importable, and
      the path must hold a database (connecting to anything else, or to a
      missing file, leaves no `users` table to query). */
  function Table(files: map<string, FileContent>, path: string, hasSqlite3: bool): (r: Result<map<string, Row>>)
    ensures r.Ok? ==> hasSqlite3 && path in files && files[path] == Sqlite(r.value)
  {
    if !hasSqlite3 then Err(SaltInvocationError(Sqlite3Message))
    else if path in files && files[path].Sqlite? then Ok(files[path].users)
    else Err(DatabaseError)
  }

  /** The username-to-hash map of a table. */
  function Hashes(rows: map<string, Row>): (r: map<string, string>)
    ensures r.Keys == rows.Keys
    ensures forall u :: u in r ==> r[u] == rows[u].passwordHash
  {
    map u | u in rows :: rows[u].passwordHash
  }

  /** `exists` in either backend. */
  function ExistsSpec(files: map<string, FileContent>, backend: Backend, path: string, hasSqlite3: bool,
                      username: string): Result<bool>
  {
    match backend
    case FileBackend =>
      var l := ReadSpec(files, path, false);
      if l.Err? then Err(l.error) else Ok(username in l.value.names)
    case SqliteBackend =>
      var t := Table(files, path, hasSqlite3);
      if t.Err? then Err(t.error) else Ok(username in t.value)
  }

  /** `get_password` in either backend. */
  function PasswordSpec(files: map<string, FileContent>, backend: Backend, path: string, hasSqlite3: bool,
                        username: string): Result<string>
  {
    match backend
    case FileBackend =>
      var l := ReadSpec(files, path, true);
      if l.Err? then Err(l.error)
      else if username !in l.value.entries then Err(CommandExecutionError(UnknownUserMessage(username)))
      else Ok(l.value.entries[username])
    case SqliteBackend =>
      var t := Table(files, path, hasSqlite3);
      if t.Err? then Err(t.error)
      else if username !in t.value then Err(CommandExecutionError(UnknownUserMessage(username)))
      else Ok(t.value[username].passwordHash)
  }

  /** What a successful `_add` or `_rm` writes: the rewritten password
      file, or the new table. */
  datatype Change = WriteText(entries: map<string, string>) | WriteTable(rows: map<string, Row>)

  ghost function Applied(files: map<string, FileContent>, path: string, plan: Result<Change>): map<string, FileContent> {
    if plan.Err? then files
    else match plan.value
      case WriteText(m) => files[path := Plain(Render(SortedKeys(m.Keys), m))]
      case WriteTable(rows) => files[path := Sqlite(rows)]
  }

  /** `_add`: the file backend rewrites the map with the user set; the
      database updates the hash of an existing row (keeping `is_admin`) or
      inserts a row that is not an admin. */
  function AddImplSpec(files: map<string, FileContent>, backend: Backend, path: string, hasSqlite3: bool,
                       username: string, hash: string): Result<Change>
  {
    match backend
    case FileBackend =>
      var l := ReadSpec(files, path, true);
      if l.Err? then Err(l.error) else Ok(WriteText(l.value.entries[username := hash]))
    case SqliteBackend =>
      var t := Table(files, path, hasSqlite3);
      if t.Err? then Err(t.error)
      else if username in t.value then Ok(WriteTable(t.value[username := Row(hash, t.value[username].isAdmin)]))
      else Ok(WriteTable(t.value[username := Row(hash, false)]))
  }

  /** UserCollection.add. */
  function AddSpec(files: map<string, FileContent>, backend: Backend, path: string, hasSqlite3: bool,
                   username: string, hash: string, update: bool): Result<Change>
  {
    var e := ExistsSpec(files, backend, path, hasSqlite3, username);
    if e.Err? then Err(e.error)
    else if e.value && !update then Err(CommandExecutionError(ExistsMessage(username)))
    else AddImplSpec(files, backend, path, hasSqlite3, username, hash)
  }

  /** `_rm`: the file backend pops the user (a KeyError when absent); the
      database deletes the matching row. */
  function RmImplSpec(files: map<string, FileContent>, backend: Backend, path: string, hasSqlite3: bool,
                      username: string): Result<Change>
  {
    match backend
    case FileBackend =>
      var l := ReadSpec(files, path, true);
      if l.Err? then Err(l.error)
      else if username !in l.value.entries then Err(KeyError)
      else Ok(WriteText(l.value.entries - {username}))
    case SqliteBackend =>
      var t := Table(files, path, hasSqlite3);
      if t.Err? then Err(t.error) else Ok(WriteTable(t.value - {username}))
  }

  /** UserCollection.rm. */
  function RmSpec(files: map<string, FileContent>, backend: Backend, path: string, hasSqlite3: bool,
                  username: string): Result<Change>
  {
    var e := ExistsSpec(files, backend, path, hasSqlite3, username);
    if e.Err? then Err(e.error)
    else if !e.value then Err(CommandExecutionError(UnknownUsernameMessage(username)))
    else RmImplSpec(files, backend, path, hasSqlite3, username)
  }

  /** The class hierarchy as one class: `backend` says which subclass the
      object is. */
  class UserCollection {
    const fs: FileSystem
    const pwFile: string
    const backend: Backend
    const hasSqlite3: bool

    constructor(fs: FileSystem, pwFile: string, backend: Backend, hasSqlite3: bool)
      ensures this.fs == fs && this.pwFile == pwFile && this.backend == backend && this.hasSqlite3 == hasSqlite3
    {
      this.fs := fs;
      this.pwFile := pwFile;
      this.backend := backend;
      this.hasSqlite3 := hasSqlite3;
    }

    /** `_cur` followed by reading the table. */
    method Rows() returns (r: Result<map<string, Row>>)
      ensures r == Table(fs.files, pwFile, hasSqlite3)
    {
      if !hasSqlite3 {
        return Err(SaltInvocationError(Sqlite3Message));
      }
      if pwFile !in fs.files || !fs.files[pwFile].Sqlite? {
        return Err(DatabaseError);
      }
      r := Ok(fs.files[pwFile].users);
    }

    method Exists(username: string) returns (r: Result<bool>)
      ensures r == ExistsSpec(fs.files, backend, pwFile, hasSqlite3, username)
    {
      if backend == FileBackend {
        var l := ReadPwFile(fs, pwFile, false);
        if l.Err? {
          return Err(l.error);
        }
        r := Ok(username in l.value.names);
      } else {
        var t := Rows();
        if t.Err? {
          return Err(t.error);
        }
        r := Ok(username in t.value);
      }
    }

    method GetPassword(username: string) returns (r: Result<string>)
      ensures r == PasswordSpec(fs.files, backend, pwFile, hasSqlite3, username)
    {
      if backend == FileBackend {
        var l := ReadPwFile(fs, pwFile, true);
        if l.Err? {
          return Err(l.error);
        }
        if username !in l.value.entries {
          return Err(CommandExecutionError(UnknownUserMessage(username)));
        }
        r := Ok(l.value.entries[username]);
      } else {
        var t := Rows();
        if t.Err? {
          return Err(t.error);
        }
        if username !in t.value {
          return Err(CommandExecutionError(UnknownUserMessage(username)));
        }
        r := Ok(t.value[username].passwordHash);
      }
    }

    /** `ls`: the database returns its rows in no particular order, so the
        names come out in an order left open here. */
    method Ls(includePass: bool) returns (r: Result<Listing>)
      ensures backend == FileBackend ==> r == ReadSpec(fs.files, pwFile, includePass)
      ensures backend == SqliteBackend ==>
        var t := Table(fs.files, pwFile, hasSqlite3);
        && (t.Err? ==> r == Err(t.error))
        && (t.Ok? && includePass ==> r == Ok(Entries(Hashes(t.value))))
        && (t.Ok? && !includePass ==>
              && r.Ok? && r.value.Names? && |r.value.names| == |t.value|
              && forall u :: u in r.value.names <==> u in t.value)
    {
      if backend == FileBackend {
        r := ReadPwFile(fs, pwFile, includePass);
        return;
      }
      var t := Rows();
      if t.Err? {
        return Err(t.error);
      }
      if includePass {
        return Ok(Entries(Hashes(t.value)));
      }
      var remaining := t.value.Keys;
      var names: seq<string> := [];
      while remaining != {}
        invariant remaining <= t.value.Keys
        invariant |names| + |remaining| == |t.value|
        invariant forall u :: u in names <==> u in t.value && u !in remaining
        decreases |remaining|
      {
        var u :| u in remaining;
        names := names + [u];
        remaining := remaining - {u};
      }
      r := Ok(Names(names));
    }

    method AddImpl(username: string, hash: string) returns (r: Result<bool>)
      modifies fs
      ensures var plan := AddImplSpec(old(fs.files), backend, pwFile, hasSqlite3, username, hash);
              && r == (if plan.Err? then Err(plan.error) else Ok(true))
              && fs.files == Applied(old(fs.files), pwFile, plan)
    {
      if backend == FileBackend {
        var l := ReadPwFile(fs, pwFile, true);
        if l.Err? {
          return Err(l.error);
        }
        var users := l.value.entries;
        users := users[username := hash];
        r := WritePwFile(fs, pwFile, users);
      } else {
        var present := Exists(username);
        if present.Err? {
          return Err(present.error);
        }
        var t := Rows();
        if present.value {
          fs.files := fs.files[pwFile := Sqlite(t.value[username := Row(hash, t.value[username].isAdmin)])];
        } else {
          fs.files := fs.files[pwFile := Sqlite(t.value[username := Row(hash, false)])];
        }
        r := Ok(true);
      }
    }

    method Add(username: string, hash: string, update: bool) returns (r: Result<bool>)
      modifies fs
      ensures var plan := AddSpec(old(fs.files), backend, pwFile, hasSqlite3, username, hash, update);
              && r == (if plan.Err? then Err(plan.error) else Ok(true))
              && fs.files == Applied(old(fs.files), pwFile, plan)
    {
      var present := Exists(username);
      if present.Err? {
        return Err(present.error);
      }
      if present.value && !update {
        return Err(CommandExecutionError(ExistsMessage(username)));
      }
      r := AddImpl(username, hash);
    }

    method RmImpl(username: string) returns (r: Result<bool>)
      modifies fs
      ensures var plan := RmImplSpec(old(fs.files), backend, pwFile, hasSqlite3, username);
              && r == (if plan.Err? then Err(plan.error) else Ok(true))
              && fs.files == Applied(old(fs.files), pwFile, plan)
    {
      if backend == FileBackend {
        var l := ReadPwFile(fs, pwFile, true);
        if l.Err? {
          return Err(l.error);
        }
        var users := l.value.entries;
        if username !in users {
          return Err(KeyError);
        }
        users := users - {username};
        r := WritePwFile(fs, pwFile, users);
      } else {
        var t := Rows();
        if t.Err? {
          return Err(t.error);
        }
        fs.files := fs.files[pwFile := Sqlite(t.value - {username})];
        r := Ok(true);
      }
    }

    method Rm(username: string) returns (r: Result<bool>)
      modifies fs
      ensures var plan := RmSpec(old(fs.files), backend, pwFile, hasSqlite3, username);
              && r == (if plan.Err? then Err(plan.error) else Ok(true))
              && fs.files == Applied(old(fs.files), pwFile, plan)
    {
      var present := Exists(username);
      if present.Err? {
        return Err(present.error);
      }
      if !present.value {
        return Err(CommandExecutionError(UnknownUsernameMessage(username)));
      }
      r := RmImpl(username);
    }
  }

  // ---------------------------------------------------------------------
  // Module functions: get_pw_hash, add_user, check_password
  // ---------------------------------------------------------------------

  /** What get_pw_hash returns for a given random salt (whose length is
      the `salt_size` argument). Constructor ValueErrors become
      CommandExecutionErrors; a key length below one only fails later, in
      hashing, and escapes as a ValueError. */
  function PwHash(prims: Primitives, salt: Bytes, password: Option<Bytes>, iterations: int, hmac: string,
                  keylen: int): (r: Result<string>)
    ensures r.Err? ==> || r.error.CommandExecutionError?
                       || r.error == ValueError(KeyLengthMessage)
                       || r.error == OverflowError(IterationsTooGreatMessage)
                       || r.error == OverflowError(KeyLengthTooGreatMessage)
  {
    var rec := GoauthFromPassword(password, salt, hmac, iterations, keylen);
    if rec.Err? then Err(AsCommandError(rec.error))
    else
      match CurrentDigest(prims, rec.value)
      case Err(e) => Err(e)
      case Ok(d) => Ok(Format(rec.value, d))
  }

  method GetPwHash(prims: Primitives, salt: Bytes, password: Option<Bytes>, iterations: int := 100000,
                   hmac: string := "sha512", keylen: int := 32) returns (r: Result<string>)
    ensures r == PwHash(prims, salt, password, iterations, hmac, keylen)
  {
    var rec := GoauthFromPassword(password, salt, hmac, iterations, keylen);
    if rec.Err? {
      return Err(AsCommandError(rec.error));
    }
    var pw := new PasswordRecord(rec.value);
    r := pw.ToString(prims);
  }

  /** The backend _get_collection picks for `path` given the cache, or
      why it cannot pick one. */
  function SelectedBackend(cache: map<string, bool>, files: map<string, FileContent>, path: string): Result<Backend> {
    if path !in files then Err(CommandExecutionError(PathMissingMessage(path)))
    else
      var isSqlite := if ContextKey(path) in cache then cache[ContextKey(path)] else HasSqliteHeader(files[path]);
      Ok(if isSqlite then SqliteBackend else FileBackend)
  }

  /** The cache after _get_collection looked at `path`. */
  function CacheAfter(cache: map<string, bool>, files: map<string, FileContent>, path: string): map<string, bool> {
    if ContextKey(path) !in cache && path in files then cache[ContextKey(path) := HasSqliteHeader(files[path])]
    else cache
  }

  /** What add_user changes, or the first error it raises. */
  function AddUserSpec(cache: map<string, bool>, files: map<string, FileContent>, prims: Primitives, salt: Bytes,
                       username: string, password: Option<Bytes>, passwordHash: Option<string>, update: bool,
                       pwFile: string, hasSqlite3: bool): Result<Change>
  {
    if password.None? && passwordHash.None? then Err(SaltInvocationError(NoSecretMessage))
    else
      var backend := SelectedBackend(cache, files, pwFile);
      if backend.Err? then Err(backend.error)
      else
        var hash := if passwordHash.Some? && passwordHash.value != "" then Ok(passwordHash.value)
                    else PwHash(prims, salt, password, 100000, "sha512", 32);
        if hash.Err? then Err(hash.error)
        else AddSpec(files, backend.value, pwFile, hasSqlite3, username, hash.value, update)
  }

  /** add_user: argument check, collection, hash, then `add`. */
  method AddUser(ctx: Context, fs: FileSystem, prims: Primitives, salt: Bytes, username: string,
                 password: Option<Bytes>, passwordHash: Option<string>, update: bool,
                 pwFile: string, hasSqlite3: bool) returns (r: Result<bool>)
    modifies ctx, fs
    ensures var plan := AddUserSpec(old(ctx.cache), old(fs.files), prims, salt, username, password,
                                    passwordHash, update, pwFile, hasSqlite3);
            && r == (if plan.Err? then Err(plan.error) else Ok(true))
            && fs.files == Applied(old(fs.files), pwFile, plan)
    ensures ctx.cache == if password.None? && passwordHash.None? then old(ctx.cache)
                         else CacheAfter(old(ctx.cache), old(fs.files), pwFile)
  {
    if password.None? && passwordHash.None? {
      return Err(SaltInvocationError(NoSecretMessage));
    }
    var users := GetCollection(ctx, fs, pwFile, hasSqlite3);
    if users.Err? {
      return Err(users.error);
    }
    var hash: string;
    if passwordHash.Some? && passwordHash.value != "" {
      hash := passwordHash.value;
    } else {
      var generated := GetPwHash(prims, salt, password);
      if generated.Err? {
        return Err(generated.error);
      }
      hash := generated.value;
    }
    r := users.value.Add(username, hash, update);
  }

  /** What check_password answers: a username together with a file
      overrides the hash; the hash is parsed in the go-auth format. */
  function CheckPasswordSpec(cache: map<string, bool>, files: map<string, FileContent>, prims: Primitives,
                             password: Bytes, username: Option<string>, pwHash: Option<string>,
                             pwFile: Option<string>, hasSqlite3: bool): Result<bool>
  {
    if pwHash.None? && (username.None? || pwFile.None?) then Err(SaltInvocationError(NoUserOrHashMessage))
    else
      var hash :=
        if username.Some? && pwFile.Some? then
          var backend := SelectedBackend(cache, files, pwFile.value);
          if backend.Err? then Err(backend.error)
          else PasswordSpec(files, backend.value, pwFile.value, hasSqlite3, username.value)
        else Ok(pwHash.value);
      if hash.Err? then Err(hash.error)
      else
        var rec := ParseGoauth(hash.value);
        if rec.Err? then Err(rec.error) else Verify(prims, rec.value, password)
  }

  /** check_password. */
  method CheckPassword(ctx: Context, fs: FileSystem, prims: Primitives, password: Bytes,
                       username: Option<string>, pwHash: Option<string>, pwFile: Option<string>,
                       hasSqlite3: bool) returns (r: Result<bool>)
    modifies ctx
    ensures r == CheckPasswordSpec(old(ctx.cache), fs.files, prims, password, username, pwHash, pwFile, hasSqlite3)
    ensures ctx.cache == if username.Some? && pwFile.Some? then CacheAfter(old(ctx.cache), fs.files, pwFile.value)
                         else old(ctx.cache)
  {
    if pwHash.None? && (username.None? || pwFile.None?) {
      return Err(SaltInvocationError(NoUserOrHashMessage));
    }
    var hash: string;
    if username.Some? && pwFile.Some? {
      var users := GetCollection(ctx, fs, pwFile.value, hasSqlite3);
      if users.Err? {
        return Err(users.error);
      }
      var stored := users.value.GetPassword(username.value);
      if stored.Err? {
        return Err(stored.error);
      }
      hash := stored.value;
    } else {
      hash := pwHash.value;
    }
    var rec := ParseGoauth(hash);
    if rec.Err? {
      return Err(rec.error);
    }
    var pw := new PasswordRecord(rec.value);
    r := pw.CheckPassword(prims, password);
  }
}
