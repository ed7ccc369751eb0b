/** The colon-delimited password file: one `user:hash` line per user.
    Files live in a FileSystem object whose map from path to content the
    writer updates in place. */
module PwFile {
  import opened Outcomes
  import opened Text

  /** A row of the go-auth `users` table. */
  datatype Row = Row(passwordHash: string, isAdmin: bool)

  /** What a path holds: text, or an SQLite database seen as its `users`
      table. */
  datatype FileContent = Plain(text: string) | Sqlite(users: map<string, Row>)

  /** The part of the file system the modules touch. */
  class FileSystem {
    var files: map<string, FileContent>

    constructor(files: map<string, FileContent>)
      ensures this.files == files
    {
      this.files := files;
    }
  }

  /** `read_pw_file` returns the usernames, or the username-to-hash map
      when the hashes are asked for. */
  datatype Listing = Names(names: seq<string>) | Entries(entries: map<string, string>)

  function MissingFileMessage(path: string): string {
    "Password file " + path + " does not exist."
  }

  function ParseFailureMessage(path: string): string {
    "Could not parse " + path + "."
  }

  /** A line is skipped when empty and accepted when it splits on `:` into
      exactly two parts. */
  predicate LineParses(line: string) {
    line == "" || |Split(line, ':')| == 2
  }

  predicate AllParse(lines: seq<string>) {
    forall i :: 0 <= i < |lines| ==> LineParses(lines[i])
  }

  /** The usernames of the non-empty lines, in file order, duplicates kept. */
  function UserNames(lines: seq<string>): (r: seq<string>)
    requires AllParse(lines)
    ensures |r| <= |lines|
  {
    if |lines| == 0 then []
    else
      var init := UserNames(lines[..|lines| - 1]);
      var line := lines[|lines| - 1];
      if line == "" then init else init + [Split(line, ':')[0]]
  }

  /** The username-to-hash map of the non-empty lines; a later line for the
      same user overrides an earlier one. */
  function UserMap(lines: seq<string>): (r: map<string, string>)
    requires AllParse(lines)
  {
    if |lines| == 0 then map[]
    else
      var init := UserMap(lines[..|lines| - 1]);
      var line := lines[|lines| - 1];
      if line == "" then init else init[Split(line, ':')[0] := Split(line, ':')[1]]
  }

  /** What `read_pw_file` yields for `path` in `files`. A database is not
      text, so reading it as text fails to decode. */
  function ReadSpec(files: map<string, FileContent>, path: string, includePass: bool): (r: Result<Listing>)
    ensures r.Ok? ==> (includePass <==> r.value.Entries?)
  {
    if path !in files then Err(CommandExecutionError(MissingFileMessage(path)))
    else match files[path]
      case Sqlite(_) => Err(DecodeError)
      case Plain(text) =>
        var lines := SplitLines(text);
        if !AllParse(lines) then Err(CommandExecutionError(ParseFailureMessage(path)))
        else if includePass then Ok(Entries(UserMap(lines)))
        else Ok(Names(UserNames(lines)))
  }

  /** read_pw_file: check the path, then walk the lines left to right. */
  method ReadPwFile(fs: FileSystem, path: string, includePass: bool) returns (r: Result<Listing>)
    ensures r == ReadSpec(fs.files, path, includePass)
  {
    if path !in fs.files {
      return Err(CommandExecutionError(MissingFileMessage(path)));
    }
    var content := fs.files[path];
    if content.Sqlite? {
      return Err(DecodeError);
    }
    var lines := SplitLines(content.text);
    var names: seq<string> := [];
    var entries: map<string, string> := map[];
    var i := 0;
    while i < |lines|
      invariant 0 <= i <= |lines|
      invariant AllParse(lines[..i])
      invariant !includePass ==> names == UserNames(lines[..i])
      invariant includePass ==> entries == UserMap(lines[..i])
    {
      var line := lines[i];
      assert lines[..i + 1][..i] == lines[..i];
      if line != "" {
        var parts := Split(line, ':');
        if |parts| != 2 {
          assert !LineParses(lines[i]);
          return Err(CommandExecutionError(ParseFailureMessage(path)));
        }
        if includePass {
          entries := entries[parts[0] := parts[1]];
        } else {
          names := names + [parts[0]];
        }
      }
      i := i + 1;
    }
    assert lines[..i] == lines;
    if includePass {
      r := Ok(Entries(entries));
    } else {
      r := Ok(Names(names));
    }
  }

  /** One line of the written file. */
  function EntryLine(user: string, hash: string): string {
    user + ":" + hash + "\n"
  }

  /** The file text for `keys`, in the given order. */
  function Render(keys: seq<string>, data: map<string, string>): string
    requires forall k :: k in keys ==> k in data
  {
    if |keys| == 0 then "" else EntryLine(keys[0], data[keys[0]]) + Render(keys[1..], data)
  }

  /** Writing the least remaining user first keeps the text written so
      far a prefix of the whole rendering. */
  lemma RenderLeast(done: string, s: set<string>, user: string, data: map<string, string>)
    requires s <= data.Keys && IsLeast(user, s)
    ensures done + Render(SortedKeys(s), data)
         == (done + EntryLine(user, data[user])) + Render(SortedKeys(s - {user}), data)
  {
    SortedKeysUnfold(s, user);
    RenderCons(done, user, SortedKeys(s - {user}), data);
  }

  /** The first key's line comes first. */
  lemma RenderCons(done: string, user: string, rest: seq<string>, data: map<string, string>)
    requires user in data && forall k :: k in rest ==> k in data
    ensures done + Render([user] + rest, data) == (done + EntryLine(user, data[user])) + Render(rest, data)
  {
    var line := EntryLine(user, data[user]);
    var tail := Render(rest, data);
    assert Render([user] + rest, data) == line + tail by {
      assert ([user] + rest)[1..] == rest;
    }
    assert done + (line + tail) == (done + line) + tail;
  }

  /** Nothing is left to write once no user remains. */
  lemma RenderNone(data: map<string, string>)
    ensures Render(SortedKeys({}), data) == ""
  {
  }

  /** A second write to the same path hides the first. */
  lemma OverwriteTwice(m: map<string, FileContent>, path: string, a: FileContent, b: FileContent)
    ensures m[path := a][path := b] == m[path := b]
  {
  }

  /** write_pw_file: check the path, truncate the file, then append one
      line per user in ascending username order. */
  method WritePwFile(fs: FileSystem, path: string, data: map<string, string>) returns (r: Result<bool>)
    modifies fs
    ensures path !in old(fs.files) ==>
      r == Err(CommandExecutionError(MissingFileMessage(path))) && fs.files == old(fs.files)
    ensures path in old(fs.files) ==>
      r == Ok(true) && fs.files == old(fs.files)[path := Plain(Render(SortedKeys(data.Keys), data))]
  {
    if path !in fs.files {
      return Err(CommandExecutionError(MissingFileMessage(path)));
    }
    fs.files := fs.files[path := Plain("")];
    var remaining := data.Keys;
    var text := "";
    while remaining != {}
      invariant remaining <= data.Keys
      invariant fs.files == old(fs.files)[path := Plain(text)]
      invariant text + Render(SortedKeys(remaining), data) == Render(SortedKeys(data.Keys), data)
      decreases |remaining|
    {
      LeastExists(remaining);
      var user :| user in remaining && IsLeast(user, remaining);
      var line := EntryLine(user, data[user]);
      assert (text + line) + Render(SortedKeys(remaining - {user}), data)
          == Render(SortedKeys(data.Keys), data) by {
        RenderLeast(text, remaining, user, data);
      }
      OverwriteTwice(old(fs.files), path, Plain(text), Plain(text + line));
      fs.files := fs.files[path := Plain(text + line)];
      text := text + line;
      remaining := remaining - {user};
    }
    RenderNone(data);
    assert text + "" == text;
    r := Ok(true);
  }

  // ---------------------------------------------------------------------
  // Laws of the file format
  // ---------------------------------------------------------------------

  /** A non-empty line is accepted exactly when it holds one colon: no
      colon and two or more colons are both rejected. */
  lemma LineParsesIffOneColon(line: string)
    ensures LineParses(line) <==> line == "" || Occurrences(line, ':') == 1
  {
    SplitSpec(line, ':');
  }

  /** Reading two pieces of a file one after the other: the names are
      concatenated in file order, and in the map the later piece wins. */
  lemma {:induction false} ListingConcat(a: seq<string>, b: seq<string>)
    requires AllParse(a) && AllParse(b)
    ensures AllParse(a + b)
    ensures UserNames(a + b) == UserNames(a) + UserNames(b)
    ensures UserMap(a + b) == UserMap(a) + UserMap(b)
    decreases |b|
  {
    AllParseConcat(a, b);
    if |b| == 0 {
      assert a + b == a;
    } else {
      var init, last := b[..|b| - 1], b[|b| - 1];
      UnfoldLast(b);
      ListingConcat(a, init);
      var n := a + b;
      assert n[..|n| - 1] == a + init && n[|n| - 1] == last;
      UnfoldLast(n);
      assert (UserNames(a) + UserNames(init)) + LastNames(last)
          == UserNames(a) + (UserNames(init) + LastNames(last));
      MapUnionAssoc(UserMap(a), UserMap(init), LastEntry(last));
    }
  }

  /** The name a line contributes to the listing. */
  function LastNames(line: string): seq<string>
    requires LineParses(line)
  {
    if line == "" then [] else [Split(line, ':')[0]]
  }

  /** The entry a line contributes to the map. */
  function LastEntry(line: string): map<string, string>
    requires LineParses(line)
  {
    if line == "" then map[] else map[Split(line, ':')[0] := Split(line, ':')[1]]
  }

  /** The listing of some lines is that of all but the last, followed by
      what the last line contributes. */
  lemma UnfoldLast(lines: seq<string>)
    requires AllParse(lines) && |lines| > 0
    ensures AllParse(lines[..|lines| - 1])
    ensures UserNames(lines) == UserNames(lines[..|lines| - 1]) + LastNames(lines[|lines| - 1])
    ensures UserMap(lines) == UserMap(lines[..|lines| - 1]) + LastEntry(lines[|lines| - 1])
  {
    var init := lines[..|lines| - 1];
    assert AllParse(init) by {
      forall i | 0 <= i < |init| ensures LineParses(init[i]) { assert init[i] == lines[i]; }
    }
    UnfoldLastNames(lines);
    UnfoldLastEntry(lines);
  }

  lemma UnfoldLastNames(lines: seq<string>)
    requires AllParse(lines) && |lines| > 0 && AllParse(lines[..|lines| - 1])
    ensures UserNames(lines) == UserNames(lines[..|lines| - 1]) + LastNames(lines[|lines| - 1])
  {
    if lines[|lines| - 1] == "" {
      assert UserNames(lines[..|lines| - 1]) + [] == UserNames(lines[..|lines| - 1]);
    }
  }

  lemma UnfoldLastEntry(lines: seq<string>)
    requires AllParse(lines) && |lines| > 0 && AllParse(lines[..|lines| - 1])
    ensures UserMap(lines) == UserMap(lines[..|lines| - 1]) + LastEntry(lines[|lines| - 1])
  {
    var init, last := lines[..|lines| - 1], lines[|lines| - 1];
    if last == "" {
      assert UserMap(init) + map[] == UserMap(init);
    } else {
      var k, v := Split(last, ':')[0], Split(last, ':')[1];
      assert UserMap(lines) == UserMap(init)[k := v];
      MapUpdateAsUnion(UserMap(init), k, v);
    }
  }

  lemma MapUpdateAsUnion(x: map<string, string>, k: string, v: string)
    ensures x[k := v] == x + map[k := v]
  {
  }

  lemma MapUnionAssoc(x: map<string, string>, y: map<string, string>, z: map<string, string>)
    ensures (x + y) + z == x + (y + z)
  {
  }

  lemma AllParseConcat(a: seq<string>, b: seq<string>)
    requires AllParse(a) && AllParse(b)
    ensures AllParse(a + b)
  {
    forall i | 0 <= i < |a + b| ensures LineParses((a + b)[i]) {
      if i >= |a| { assert (a + b)[i] == b[i - |a|]; }
    }
  }

  /** Every listed name has an entry in the map, and every key of the map
      is a listed name. */
  lemma {:induction false} NamesMatchEntries(lines: seq<string>)
    requires AllParse(lines)
    ensures forall u :: u in UserNames(lines) <==> u in UserMap(lines)
    decreases |lines|
  {
    if |lines| > 0 {
      NamesMatchEntries(lines[..|lines| - 1]);
    }
  }

  /** Keys and hashes that the format can carry: no colon and no line
      boundary. */
  predicate Writable(data: map<string, string>) {
    forall u :: u in data ==>
      ':' !in u && ':' !in data[u] && !HasLineBreak(u) && !HasLineBreak(data[u])
  }

  /** The lines, without their terminators, that Render writes. */
  function EntryLines(keys: seq<string>, data: map<string, string>): (r: seq<string>)
    requires forall k :: k in keys ==> k in data
    ensures |r| == |keys|
  {
    if |keys| == 0 then [] else [keys[0] + ":" + data[keys[0]]] + EntryLines(keys[1..], data)
  }

  lemma NoBreakAroundColon(u: string, h: string)
    requires !HasLineBreak(u) && !HasLineBreak(h)
    ensures !HasLineBreak(u + ":" + h)
  {
    var s := u + ":" + h;
    forall k | 0 <= k < |s| ensures !IsLineBreak(s[k]) {
      if k < |u| { assert s[k] == u[k]; }
      else if k > |u| { assert s[k] == h[k - |u| - 1]; }
    }
  }

  lemma SplitEntry(u: string, h: string)
    requires ':' !in u && ':' !in h
    ensures Split(u + ":" + h, ':') == [u, h]
  {
    assert u + ":" + h == u + [':'] + h;
    SplitTwo(u, ':', h);
  }

  /** The rendered text splits back into exactly one line per key. */
  lemma {:induction false} RenderLines(keys: seq<string>, data: map<string, string>)
    requires forall k :: k in keys ==> k in data
    requires Writable(data)
    ensures SplitLines(Render(keys, data)) == EntryLines(keys, data)
    decreases |keys|
  {
    if |keys| > 0 {
      var u := keys[0];
      RenderLines(keys[1..], data);
      NoBreakAroundColon(u, data[u]);
      SplitLinesCons(u + ":" + data[u], Render(keys[1..], data));
      assert Render(keys, data) == (u + ":" + data[u]) + "\n" + Render(keys[1..], data);
    }
  }

  /** Reading the lines Render writes gives back the keys in order and
      their hashes. */
  lemma {:induction false} EntryLinesRead(keys: seq<string>, data: map<string, string>)
    requires forall k :: k in keys ==> k in data
    requires Writable(data)
    ensures AllParse(EntryLines(keys, data))
    ensures UserNames(EntryLines(keys, data)) == keys
    ensures forall u :: u in UserMap(EntryLines(keys, data)) <==> u in keys
    ensures forall u :: u in UserMap(EntryLines(keys, data)) ==> UserMap(EntryLines(keys, data))[u] == data[u]
    decreases |keys|
  {
    if |keys| > 0 {
      var u := keys[0];
      var line := u + ":" + data[u];
      var rest := EntryLines(keys[1..], data);
      EntryLinesRead(keys[1..], data);
      SplitEntry(u, data[u]);
      assert line != "" by { assert line[|u|] == ':'; }
      var first: seq<string> := [line];
      assert UserNames(first) == [u] && UserMap(first) == map[u := data[u]] by {
        assert first[..0] == [];
      }
      ListingConcat(first, rest);
      assert keys == [u] + keys[1..];
    }
  }

  /** Reading back what write_pw_file wrote gives the same map, and the
      usernames in ascending order, one line each. */
  lemma ReadAfterWrite(files: map<string, FileContent>, path: string, data: map<string, string>)
    requires Writable(data)
    ensures var text := Render(SortedKeys(data.Keys), data);
            && |SplitLines(text)| == |data|
            && ReadSpec(files[path := Plain(text)], path, true) == Ok(Entries(data))
            && ReadSpec(files[path := Plain(text)], path, false) == Ok(Names(SortedKeys(data.Keys)))
  {
    var keys := SortedKeys(data.Keys);
    var text := Render(keys, data);
    var lines := EntryLines(keys, data);
    assert SplitLines(text) == lines by { RenderLines(keys, data); }
    assert AllParse(lines) && UserNames(lines) == keys && UserMap(lines) == data by {
      EntryLinesRead(keys, data);
      SameEntries(UserMap(lines), data, keys);
    }
  }

  /** Two maps with the same keys, listed in `keys`, and the same values
      are equal. */
  lemma SameEntries(m: map<string, string>, data: map<string, string>, keys: seq<string>)
    requires forall u :: u in m <==> u in keys
    requires forall u :: u in data <==> u in keys
    requires forall u :: u in m ==> m[u] == data[u]
    ensures m == data
  {
  }

  /** A piece of a line without boundaries has none either. */
  lemma PieceHasNoBreak(line: string, k: nat)
    requires !HasLineBreak(line) && k < |Split(line, ':')|
    ensures !HasLineBreak(Split(line, ':')[k])
  {
    var piece := Split(line, ':')[k];
    forall j | 0 <= j < |piece| ensures !IsLineBreak(piece[j]) {
      SplitPieceChars(line, ':', k, j);
    }
  }

  /** Whatever a file yields can be written back: read keys and hashes
      never hold a colon or a line boundary. */
  lemma {:induction false} ParsedEntriesWritable(lines: seq<string>)
    requires AllParse(lines)
    requires forall i :: 0 <= i < |lines| ==> !HasLineBreak(lines[i])
    ensures Writable(UserMap(lines))
    decreases |lines|
  {
    if |lines| > 0 {
      var line := lines[|lines| - 1];
      ParsedEntriesWritable(lines[..|lines| - 1]);
      if line != "" {
        SplitSpec(line, ':');
        PieceHasNoBreak(line, 0);
        PieceHasNoBreak(line, 1);
      }
    }
  }

  /** A successful read of the whole map yields a map that can be
      written back. */
  lemma ReadIsWritable(files: map<string, FileContent>, path: string)
    requires ReadSpec(files, path, true).Ok?
    ensures Writable(ReadSpec(files, path, true).value.entries)
  {
    SplitLinesNoBreak(files[path].text);
    ParsedEntriesWritable(SplitLines(files[path].text));
  }
}
