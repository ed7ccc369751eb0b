# salt-mosquitto-formula user management, in Dafny

This project models the user-management core of the Salt formula for Eclipse
Mosquitto and proves properties of the model. The core has four layers:

- **Password records** (`_utils/mosquitto.py`). Legacy Mosquitto records are
  `$6$salt$digest` (SHA-512) and `$7$iter$salt$digest` (PBKDF2-SHA512).
  mosquitto-go-auth records are `PBKDF2$hmac$iter$salt$digest`. The model
  covers:
  - the constructor checks;
  - lazy computation of the digest;
  - serialisation and the two parsers;
  - reading and writing the colon-delimited password file.
- **The plain Mosquitto execution module** (`_modules/mosquitto.py`). It covers
  `add_user`, `rm_user`, `user_exists`, `check_password`, `get_pw_hash` and
  the username validator.
- **The mosquitto-go-auth execution module** (`_modules/mosquitto_goauth.py`).
  It covers:
  - the 16-byte SQLite signature check and its per-path cache in Salt's
    `__context__`;
  - backend selection;
  - the user collection with its two backends: a password file, and an SQLite
    `users` table modelled as a map from username to (hash, is_admin);
  - the argument checks of `add_user` and `check_password`.
- **The Salt states** `user_present` and `user_absent` (`_states/mosquitto.py`).

Files:

| file | module | contents |
|---|---|---|
| `outcomes.dfy` | `Outcomes` | `Option`, `Result`, and the Python/Salt exceptions as an `Error` datatype |
| `text.dfy` | `Text` | Python's `str.split`, `strip`, `splitlines` and `int`, lexicographic order, and the keys of a map in ascending order |
| `base64.dfy` | `Base64` | Encoding from section 4 of RFC 4648, a decoder that rejects characters outside the alphabet, and the round trip between them |
| `password.dfy` | `Password` | The record, its constructors, hashing dispatch, formats and parsers, and the `PasswordRecord` class with its lazily set digest |
| `password_laws.dfy` | `PasswordLaws` | Round trips and derive-then-verify |
| `pwfile.dfy` | `PwFile` | A `FileSystem` class whose `files` map the methods update, plus `ReadPwFile` and `WritePwFile` |
| `vanilla.dfy`, `vanilla_laws.dfy` | `Vanilla`, `VanillaLaws` | The plain execution module and its laws |
| `goauth.dfy`, `goauth_laws.dfy` | `Goauth`, `GoauthLaws` | The go-auth execution module and its laws |
| `states.dfy` | `States` | `user_present` and `user_absent` |

Modelling choices:

- **Hash primitives.** PBKDF2 (section 5.2 of RFC 8018) and SHA-512 (FIPS
  180-4) are parameters. They arrive as a `Primitives` value holding two
  functions. `WellFormed` states only their output lengths.
- **Random salt.** The salt that `secrets.token_bytes` would draw is a
  parameter of every hashing operation.
- **File system.** It is a map from path to content. A content is either text
  or an SQLite table.
- **Salt's loader.** In the states, every execution-module call is an input:
  `Env` holds what each call answers, either a value or an exception. Each
  method also returns the log of the calls it made, with their arguments.

Every state-changing method is proved against a specification function:
- `ReadSpec`, `AddUserPlan` and `Written`;
- `AddSpec`, `RmSpec` and `Applied`;
- `CurrentDigest`.

The laws files then prove what the source promises about those functions.

## Model

| member | source | states |
|---|---|---|
| Text.SplitSpec | _utils/mosquitto.py:22-23 | `str.split(sep)` gives one piece more than there are separators, no piece holds the separator, and joining the pieces gives the string back |
| Text.SplitLinesNoBreak | _utils/mosquitto.py:18 | No line produced by `splitlines` contains a line-break character |
| Text.ParseIntNatToString | _utils/mosquitto.py:203-212 | Parsing the decimal rendering of an iteration count gives the count back |
| Text.SortedKeys | _utils/mosquitto.py:48 | `sorted(data)`: strictly ascending, and holding exactly the keys |
| Base64.DecodeEncode | _utils/mosquitto.py:119-122 | Decoding the base64 encoding of any byte string gives it back (see also lines 208-209) |
| Base64.DelimitersAreNotEncodingChars | _utils/mosquitto.py:178-231 | Neither `$` nor `:` belongs to the base64 alphabet |
| Base64.RejectsNonCanonical | _utils/mosquitto.py:208-209 | `Q=Q==`, `QUJD=` and `QQ==QQ==` are refused, where the non-strict `b64decode` accepts them (see Left out) |
| Password.NewBase | _utils/mosquitto.py:66-88 | The base constructor succeeds iff the algorithm, iteration count and HMAC are valid and a password or a digest is given. Each failure is a ValueError with the source's message, checked in the source's order |
| Password.NewLegacy | _utils/mosquitto.py:158-174 | A legacy record needs a 12-byte salt and a password of at most 65500 bytes. It forces HMAC sha512 and key length 64 |
| Password.NewGoauth | _utils/mosquitto.py:217-228 | A go-auth record is always PBKDF2. It succeeds iff the base constructor does |
| Password.LegacyFromPassword | _utils/mosquitto.py:184-189 | A record built from a password keeps it and has no digest yet |
| Password.GoauthFromPassword | _utils/mosquitto.py:237-248 | The same for go-auth, with the given HMAC, iterations and key length |
| Password.HmacName | _utils/mosquitto.py:75 | Every HMAC name the model uses is one the constructor accepts |
| Password.Hash | _utils/mosquitto.py:124-143 | `_hash` dispatches on the algorithm. The candidate falls back to the stored password when empty, and hashing fails with TypeError iff there is none. For PBKDF2, hashlib's refusals follow in its order: OverflowError for an iteration count above INT_MAX, ValueError for a key length below one, OverflowError for one above INT_MAX. The digest length is the key length for PBKDF2 and 64 for SHA-512 |
| Password.CurrentDigest | _utils/mosquitto.py:92-99 | A stored non-empty digest is used as is; otherwise it is the hash of the stored password, with that hash's errors |
| Password.Verify | _utils/mosquitto.py:90-95 | `check_password` is true iff hashing the candidate gives the current digest |
| Password.B64Decode | _utils/mosquitto.py:208-262 | Succeeds iff the text is groups of four alphabet characters with '=' only in the last group (unused trailing bits of that group ignored), and then yields the decoded bytes; otherwise the ValueError. Stricter than `b64decode`, see Left out |
| Password.ParseLegacy | _utils/mosquitto.py:191-213 | Keeps only the text after the last colon and strips outer `$`. Three fields with tag 6 give SHA-512 with one iteration; four fields with tag 7 give PBKDF2 with the second field as iterations; anything else is a ValueError |
| Password.BuildLegacy | _utils/mosquitto.py:197-213 | A parsed legacy record takes its iterations from the parsed field |
| Password.ParseGoauth | _utils/mosquitto.py:250-271 | Needs exactly five `$` fields and does not check the first. The key length is the decoded digest's length |
| Password.PasswordRecord.constructor | _utils/mosquitto.py:53-88 | The object holds the given record |
| Password.PasswordRecord.EnsureDigest | _utils/mosquitto.py:92-99 | Returns the current digest, and stores it in the object when it had to be computed |
| Password.PasswordRecord.ToString | _utils/mosquitto.py:97-110 | Returns the record's format with the current digest, setting the digest lazily |
| Password.PasswordRecord.CheckPassword | _utils/mosquitto.py:90-95 | Returns `Verify` on the record as it was before the call, setting the digest lazily |
| PasswordLaws.FormatIsFileSafe | _utils/mosquitto.py:176-231 | A serialised record contains no colon and no line break, so it fits in a password-file line |
| PasswordLaws.LegacyFieldsOfFormat | _utils/mosquitto.py:176-195 | Splitting a serialised legacy record gives back its fields |
| PasswordLaws.LegacyRoundTrip | _utils/mosquitto.py:176-213 | Parsing a serialised legacy record gives back its algorithm, salt and digest, and its iterations for PBKDF2 (1 for SHA-512) |
| PasswordLaws.GoauthRoundTrip | _utils/mosquitto.py:230-271 | Parsing a serialised go-auth record gives back its HMAC, iterations, salt and digest, with key length equal to the digest length |
| PasswordLaws.LegacyDeriveVerify | _utils/mosquitto.py:90-110 | Hashing a password, serialising and parsing back gives a record that verifies that password, for any PBKDF2 iteration count hashlib accepts (see also lines 184-213) |
| PasswordLaws.GoauthDeriveVerify | _utils/mosquitto.py:90-110 | The same for go-auth records, for any iteration count and key length hashlib accepts (see also lines 237-271) |
| PasswordLaws.EmptyCandidateOnParsedRecord | _utils/mosquitto.py:130-138 | On a parsed record (no stored password), an empty candidate raises TypeError instead of being compared |
| PasswordLaws.RejectsUnknownTag | _utils/mosquitto.py:197-206 | Any legacy record whose first field is a number other than 6 or 7 is rejected, and in particular `$5$garbage` |
| PasswordLaws.RejectsGarbage | _utils/mosquitto.py:197-206 | The record `$5$garbage` (tag 5, no further fields) is rejected |
| PasswordLaws.Hunter1Example | _utils/mosquitto.py:176-189 | `hunter1` with the defaults serialises with tag 7 and 101 iterations, and verifies |
| PasswordLaws.Hunter2Rejected | _utils/mosquitto.py:90-95 | The `hunter1` record answers false for `hunter2` whenever the two passwords' PBKDF2 digests under its salt differ |
| PwFile.FileSystem.constructor | _utils/mosquitto.py:36-41 | The file system holds the given files |
| PwFile.UserNames | _utils/mosquitto.py:25-29 | At most one name per line |
| PwFile.ReadSpec | _utils/mosquitto.py:14-33 | A listing is a map exactly when passwords are asked for |
| PwFile.ReadPwFile | _utils/mosquitto.py:14-41 | The loop over the lines returns the specified listing. A missing file, a database or a malformed line is an error |
| PwFile.WritePwFile | _utils/mosquitto.py:44-50 | A missing file is an error and changes nothing. Otherwise the file is overwritten with one `user:hash` line per entry in ascending username order, and no other file changes |
| PwFile.LineParsesIffOneColon | _utils/mosquitto.py:19-24 | A line is accepted iff it is empty or holds exactly one colon, so lines with no colon or with two are both rejected |
| PwFile.ListingConcat | _utils/mosquitto.py:16-33 | Listings of concatenated lines concatenate. In the map, a later duplicate overrides an earlier one |
| PwFile.NamesMatchEntries | _utils/mosquitto.py:25-33 | A name is listed iff it has an entry |
| PwFile.RenderLines | _utils/mosquitto.py:18-49 | Splitting the written text into lines gives exactly the entry lines, in order |
| PwFile.EntryLinesRead | _utils/mosquitto.py:18-49 | Entry lines parse back to their usernames in order, and to the same hashes |
| PwFile.ReadAfterWrite | _utils/mosquitto.py:14-50 | Reading back what was written gives the same map, and the names in ascending order, when no username or hash holds a colon or a line break |
| PwFile.ReadIsWritable | _utils/mosquitto.py:14-33 | Every map that was read can be written back unchanged |
| Vanilla.AllowedRun | _modules/mosquitto.py:224 | The look-ahead group stops at the first forbidden character |
| Vanilla.ValidateUsernameSpec | _modules/mosquitto.py:217-226 | A username is accepted iff it has at most 65536 characters and no character in 0x00-0x1F, 0x7F, U+2028 or U+2029, except that one final newline passes |
| Vanilla.AcceptsColon | _modules/mosquitto.py:219-224 | A colon passes the validator, although its docstring says otherwise |
| Vanilla.AcceptsFinalNewline | _modules/mosquitto.py:224 | `bob\n` is accepted; `bo\nb` and a tab are not |
| Vanilla.PwHash | _modules/mosquitto.py:140-149 | Every error of get_pw_hash is a CommandExecutionError, except hashlib's OverflowError for a PBKDF2 iteration count above INT_MAX, which escapes from `to_string` |
| Vanilla.GetPwHash | _modules/mosquitto.py:119-149 | Returns the specified hash string |
| Vanilla.AddUser | _modules/mosquitto.py:23-77 | Returns and writes what the add plan says. On an error nothing is written |
| Vanilla.RmUser | _modules/mosquitto.py:172-194 | Returns and writes what the remove plan says |
| Vanilla.UserExists | _modules/mosquitto.py:197-214 | True iff the username is among the listed names; a read error propagates |
| Vanilla.CheckPassword | _modules/mosquitto.py:80-116 | Returns the specified answer: a username overrides the hash, and verification goes through the legacy parser |
| VanillaLaws.PwHashVerifies | _modules/mosquitto.py:119-149 | A generated hash is file-safe, parses with tag 7 (PBKDF2) or 6 (SHA-512) as asked, and verifies its password |
| VanillaLaws.PwHashErrors | _modules/mosquitto.py:140-149 | Each constructor failure surfaces as a CommandExecutionError with its message, in order; past them, a PBKDF2 iteration count above INT_MAX escapes as OverflowError |
| VanillaLaws.AddUserRejects | _modules/mosquitto.py:58-73 | Without password or hash: SaltInvocationError before reading. An existing user without update is refused before the username is validated. Read errors propagate |
| VanillaLaws.AddUserSetsOneEntry | _modules/mosquitto.py:63-77 | A successful add writes the old map with the username set to the hash and every other entry unchanged |
| VanillaLaws.AddUserThenRead | _modules/mosquitto.py:23-77 | After an add, reading the file gives the planned map |
| VanillaLaws.CheckPasswordAfterAdd | _modules/mosquitto.py:23-116 | After adding a user with a password, check_password for that user and password is true |
| VanillaLaws.RmUserThenRead | _modules/mosquitto.py:172-194 | After a removal, reading gives the old map without exactly that user |
| VanillaLaws.RmUndoesAdd | _modules/mosquitto.py:23-77 | Removing a newly added user gives back the original map (see also lines 172-194) |
| VanillaLaws.UserExistsIffEntry | _modules/mosquitto.py:197-214 | user_exists agrees with the entries map |
| VanillaLaws.UsernameOverridesHash | _modules/mosquitto.py:110-114 | With a username given, the pw_hash argument is ignored |
| VanillaLaws.ColonUsernameBreaksFile | _modules/mosquitto.py:70-77 | A username with a colon is accepted and written, and afterwards the file no longer parses |
| Goauth.ContextKeyInjective | _modules/mosquitto_goauth.py:226 | Different paths have different cache keys |
| Goauth.HasSqliteHeader | _modules/mosquitto_goauth.py:234-237 | True only when the first 16 bytes are the SQLite signature; a shorter file never matches |
| Goauth.Context.constructor | _modules/mosquitto_goauth.py:228 | The cache starts empty |
| Goauth.CheckSqliteFile | _modules/mosquitto_goauth.py:225-239 | A cached answer is returned without reading. Otherwise a missing path is an error, and an existing one has its signature checked and cached under its own key only |
| Goauth.GetCollection | _modules/mosquitto_goauth.py:242-253 | Gives the SQLite backend iff the signature check is true, and the file backend otherwise |
| Goauth.Table | _modules/mosquitto_goauth.py:346-353 | Rows come only from an existing database when the sqlite3 library is present |
| Goauth.Hashes | _modules/mosquitto_goauth.py:317-327 | The username-to-hash map of the table |
| Goauth.UserCollection.constructor | _modules/mosquitto_goauth.py:248-253 | A collection over the given file and backend |
| Goauth.UserCollection.Rows | _modules/mosquitto_goauth.py:346-353 | Reads the table as specified |
| Goauth.UserCollection.Exists | _modules/mosquitto_goauth.py:278-306 | Existence, as specified for each backend |
| Goauth.UserCollection.GetPassword | _modules/mosquitto_goauth.py:281-315 | The stored hash, or an error for an absent user, in both backends |
| Goauth.UserCollection.Ls | _modules/mosquitto_goauth.py:287-327 | The file backend lists as `read_pw_file` does. The SQLite backend lists each row once, with its hash when asked |
| Goauth.UserCollection.AddImpl | _modules/mosquitto_goauth.py:290-338 | Performs the specified backend write |
| Goauth.UserCollection.Add | _modules/mosquitto_goauth.py:255-260 | Refuses an existing user without update, and otherwise delegates to the backend write |
| Goauth.UserCollection.RmImpl | _modules/mosquitto_goauth.py:295-344 | Performs the specified backend removal |
| Goauth.UserCollection.Rm | _modules/mosquitto_goauth.py:271-274 | Refuses an absent user, and otherwise delegates to the backend removal |
| Goauth.PwHash | _modules/mosquitto_goauth.py:145-158 | Constructor errors become CommandExecutionError. From the hashing step, a non-positive key length escapes as ValueError and an iteration count or key length above INT_MAX as OverflowError |
| Goauth.GetPwHash | _modules/mosquitto_goauth.py:117-156 | Returns the specified hash string |
| Goauth.AddUser | _modules/mosquitto_goauth.py:31-74 | Without password or hash: SaltInvocationError, and the cache and files are untouched. Otherwise the backend is selected (and cached), the hash is made if needed, and the add is applied |
| Goauth.CheckPassword | _modules/mosquitto_goauth.py:77-114 | Returns the specified answer. The cache changes only when a username and file are looked up |
| GoauthLaws.BackendCachedPerPath | _modules/mosquitto_goauth.py:225-239 | Once cached, the backend choice for a path survives any later change of the files, and other paths' entries are untouched |
| GoauthLaws.ShortFileIsPlain | _modules/mosquitto_goauth.py:234-245 | An uncached file shorter than 16 bytes selects the file backend |
| GoauthLaws.AddRmRefuse | _modules/mosquitto_goauth.py:255-274 | add refuses an existing user without update; rm refuses an absent user |
| GoauthLaws.GetPasswordAbsent | _modules/mosquitto_goauth.py:281-315 | An absent user has no password, in both backends |
| GoauthLaws.UserNamesAndMap | _modules/mosquitto_goauth.py:278-285 | The file backend's exists and get_password agree |
| GoauthLaws.SqliteAddKeepsAdmin | _modules/mosquitto_goauth.py:329-338 | An update changes only the hash and keeps is_admin. A new user is inserted with is_admin false. Other rows are unchanged |
| GoauthLaws.AddThenLookup | _modules/mosquitto_goauth.py:255-260 | After an add, get_password gives the new hash in both backends, and other users are unchanged (see also lines 290-293, 329-338) |
| GoauthLaws.RmThenGone | _modules/mosquitto_goauth.py:271-274 | After a removal the user no longer exists, and the others remain (see also lines 295-298, 340-344) |
| GoauthLaws.PwHashVerifies | _modules/mosquitto_goauth.py:117-156 | A generated go-auth hash parses back and verifies its password |
| GoauthLaws.PwHashKeyLength | _modules/mosquitto_goauth.py:145-158 | Past the constructor, an iteration count above INT_MAX yields hashlib's OverflowError; otherwise a non-positive key length yields its ValueError and one above INT_MAX its OverflowError |
| GoauthLaws.CheckPasswordArguments | _modules/mosquitto_goauth.py:103-112 | Without pw_hash, a username and a file are both needed. With them, the stored hash overrides pw_hash |
| GoauthLaws.CheckPasswordAfterAdd | _modules/mosquitto_goauth.py:31-114 | After add_user with a password, check_password with that password is true, in both backends |
| States.Caught | _states/mosquitto.py:113-116 | CommandExecutionError and SaltInvocationError become result False with unchanged changes; other exceptions escape |
| States.UserPresent | _states/mosquitto.py:10-118 | The decision tree of user_present: the result, comment and changes of each branch, which calls are made, add_user's update flag, and the module family for every call |
| States.Reconcile | _states/mosquitto.py:73-118 | Inside the `try`: an existing user without password management, or with a matching password, ends after one or two lookups; a lookup error is caught; otherwise the lookups are followed by the write phase, with the update flag set exactly when the user existed |
| States.WritePhase | _states/mosquitto.py:87-111 | Test mode reports the would-be change and calls nothing; otherwise get_pw_hash then add_user, reporting added/updated on True, a failure without changes on False, and catching a hashing or add_user error |
| States.UserAbsent | _states/mosquitto.py:121-163 | The decision tree of user_absent: already absent, test mode, removed, and the error paths, with the exact calls made |

## Left out

- The hash functions are not implemented. PBKDF2 and SHA-512 are parameters,
  and `hmac.compare_digest` is equality; constant-time comparison cannot be
  expressed.
- `secrets.token_bytes`: the salt is a parameter. For go-auth, its length
  stands for `salt_size`.
- Password.B64Decode: Python's non-strict `b64decode` is more lenient than
  the model's decoder in three ways, and the model rejects each: it drops
  characters outside the alphabet, it skips a stray '=' in the first two
  positions of a group (`Q=Q==` decodes), and it ignores whatever follows
  the first complete padding (`QQ==QQ==` decodes). So a stored hash of
  that shape, which the source accepts, makes the model's parsers and
  check_password raise ValueError. Every record the code itself writes is
  plain canonical base64, so no round trip depends on the difference.
- `int()` accepts signs, whitespace and underscores. Numeric fields are
  modelled as plain decimal digit strings. Its error message quotes the text
  with single quotes; Python's `repr` escaping of other quotes is not modelled.
- Password.Hash: every iteration count above INT_MAX gets the message
  "iteration value is too great.", and likewise for the key length. CPython
  words the OverflowError differently for a number that does not even fit a
  C `long`.
- Text and bytes are not told apart. Password lengths are counted in model
  bytes, and usernames and hashes are character strings.
- File-system I/O is a map from path to content. `Path` normalisation of the
  path inside messages is not modelled. Reading a database as a password file
  is modelled as a decode error.
- The SQLite connection, the SQL text and the lazily created connection are
  not modelled. A table is a map; a text file read as a database is a
  database error.
- Goauth.GetCollection: the source's message at `_modules/mosquitto_goauth.py:252`
  names an undefined variable and would raise NameError. The model raises
  the intended CommandExecutionError. The path is only reachable when the
  signature check was cached for a file that has since disappeared.
- `list_users` in both execution modules, and the go-auth `rm_user` and
  `user_exists`: these are one-line wrappers around the modelled
  `read_pw_file` and collection methods.
- `pillar.get`, `__opts__["test"]` and the execution-module calls made by the
  states are inputs. What `pillar.get` returns for a missing key is Salt's own
  behaviour and is not part of this model.
- States.UserPresent: `hash_opts` is passed through as a map of strings; the
  keyword arguments it expands to are not interpreted.
