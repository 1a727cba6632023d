/** Private-key storage (packages/sdk/src/storage.ts): the GitHub handle
    validator, the in-memory backend (an insertion-ordered map) and the
    filesystem backend's decision logic. The filesystem itself is a value:
    whether the key directory exists and which files it holds. Paths are
    POSIX paths given as segments; `path.resolve` is `Resolve` followed by
    `PathString`. Permissions, `AGENTCRED_HOME` and the current directory
    are outside the model. */
module Storage {
  import opened Wrappers
  import opened Types
  import opened Strings

  const InvalidUsernameFormat := "Invalid username format"
  const InvalidKeyPath := "Invalid key path"
  const KeyFileSuffix := ".jwk"
  const MaxUsernameLength := 39

  // ---------------------------------------------------------------------
  // The handle pattern ^[a-zA-Z0-9]([a-zA-Z0-9-]{0,37}[a-zA-Z0-9])?$

  predicate IsAsciiAlnum(c: char)
  {
    'a' <= c <= 'z' || 'A' <= c <= 'Z' || '0' <= c <= '9'
  }

  predicate IsHandleChar(c: char)
  {
    IsAsciiAlnum(c) || c == '-'
  }

  /** The pattern read as written: one alphanumeric, then optionally a group
      of at most 37 handle characters followed by one alphanumeric. */
  predicate IsValidUsername(s: string)
  {
    && |s| >= 1
    && IsAsciiAlnum(s[0])
    && OptionalGroup(s[1..])
  }

  predicate OptionalGroup(t: string)
  {
    || |t| == 0
    || (&& |t| - 1 <= 37
        && (forall i :: 0 <= i < |t| - 1 ==> IsHandleChar(t[i]))
        && IsAsciiAlnum(t[|t| - 1]))
  }

  /** Accepted exactly when 1 to 39 characters long, alphanumeric at both
      ends and alphanumeric or '-' in between. */
  lemma UsernameCharacterisation(s: string)
    ensures IsValidUsername(s) <==>
      && 1 <= |s| <= MaxUsernameLength
      && IsAsciiAlnum(s[0])
      && IsAsciiAlnum(s[|s| - 1])
      && (forall i :: 0 < i < |s| - 1 ==> IsHandleChar(s[i]))
  {
    if |s| >= 1 {
      var t := s[1..];
      assert forall i :: 0 < i < |s| ==> s[i] == t[i - 1];
      if 1 <= |s| <= MaxUsernameLength && IsAsciiAlnum(s[0]) && IsAsciiAlnum(s[|s| - 1])
         && (forall i :: 0 < i < |s| - 1 ==> IsHandleChar(s[i])) {
        assert forall i :: 0 <= i < |t| - 1 ==> IsHandleChar(t[i]) by {
          forall i | 0 <= i < |t| - 1 ensures IsHandleChar(t[i]) {
            assert t[i] == s[i + 1];
          }
        }
      }
    }
  }

  /** The matcher as a left-to-right scan over the characters. */
  method MatchUsername(s: string) returns (ok: bool)
    ensures ok <==> IsValidUsername(s)
  {
    UsernameCharacterisation(s);
    if |s| == 0 || |s| > MaxUsernameLength || !IsAsciiAlnum(s[0]) || !IsAsciiAlnum(s[|s| - 1]) {
      return false;
    }
    var i := 1;
    while i < |s| - 1
      invariant 1 <= i
      invariant forall k :: 0 < k < i && k < |s| - 1 ==> IsHandleChar(s[k])
    {
      if !IsHandleChar(s[i]) {
        return false;
      }
      i := i + 1;
    }
    return true;
  }

  /** A valid name contains neither '/' nor '.', so it names a single file
      inside the key directory. */
  lemma ValidUsernameHasNoPathSyntax(s: string)
    requires IsValidUsername(s)
    ensures '/' !in s && '.' !in s
  {
    UsernameCharacterisation(s);
    assert forall i :: 0 <= i < |s| ==> IsHandleChar(s[i]);
  }

  /** Names the storage tests accept. */
  lemma AcceptedExamples()
    ensures IsValidUsername("a")
    ensures IsValidUsername("valid-user")
    ensures IsValidUsername("alice-bob-123")
  {
  }

  /** Names the storage tests reject: empty, too long, leading or trailing
      hyphen, underscore, path traversal. */
  lemma RejectedExamples()
    ensures !IsValidUsername("")
    ensures !IsValidUsername("-leading")
    ensures !IsValidUsername("trailing-")
    ensures !IsValidUsername("under_score")
    ensures !IsValidUsername("../../../etc/passwd")
  {
    assert "trailing-"[8] == '-';
    assert "under_score"[1..][4] == '_';
  }

  /** A 40-character name is one too long. */
  lemma TooLongExample()
    ensures !IsValidUsername("aaaaaaaaaaaaaaaaaaaaaaaaaaaaaaaaaaaaaaaa")
  {
    assert |"aaaaaaaaaaaaaaaaaaaaaaaaaaaaaaaaaaaaaaaa"[1..]| == 39;
  }

  // ---------------------------------------------------------------------
  // MemoryKeyStorage

  /** A JavaScript `Map`: the keys in insertion order and their values. */
  datatype MemoryStore = MemoryStore(order: seq<string>, keys: map<string, Jwk>)

  /** The order lists every key exactly once. */
  ghost predicate MemoryValid(st: MemoryStore)
  {
    && (forall i, j :: 0 <= i < j < |st.order| ==> st.order[i] != st.order[j])
    && (forall n :: n in st.keys <==> n in st.order)
  }

  const EmptyMemory := MemoryStore([], map[])

  /** `keys.set(username, privateKey)`: no validation; a new name goes to
      the end of the order, an existing one keeps its place. */
  function MemorySave(st: MemoryStore, username: string, key: Jwk): (r: MemoryStore)
    requires MemoryValid(st)
    ensures MemoryValid(r)
    ensures r.keys == st.keys[username := key]
    ensures username in st.keys ==> r.order == st.order
    ensures username !in st.keys ==> r.order == st.order + [username]
  {
    if username in st.keys then MemoryStore(st.order, st.keys[username := key])
    else MemoryStore(st.order + [username], st.keys[username := key])
  }

  /** `keys.get(username) ?? null`. */
  function MemoryLoad(st: MemoryStore, username: string): (r: Option<Jwk>)
    ensures r.Some? <==> username in st.keys
    ensures r.Some? ==> r.value == st.keys[username]
  {
    if username in st.keys then Some(st.keys[username]) else None
  }

  /** `Array.from(keys.keys())`: every saved name, each once. */
  function MemoryList(st: MemoryStore): (r: seq<string>)
    requires MemoryValid(st)
    ensures forall n :: n in r <==> n in st.keys
    ensures forall i, j :: 0 <= i < j < |r| ==> r[i] != r[j]
    ensures |r| == |st.keys|
  {
    DistinctSeqCardinality(st.order, st.keys.Keys);
    st.order
  }

  lemma {:induction false} DistinctSeqCardinality(s: seq<string>, keys: set<string>)
    requires forall i, j :: 0 <= i < j < |s| ==> s[i] != s[j]
    requires forall n :: n in keys <==> n in s
    ensures |s| == |keys|
    decreases |s|
  {
    if |s| > 0 {
      var last := s[|s| - 1];
      var init := s[..|s| - 1];
      assert forall n :: n in keys - {last} <==> n in init by {
        forall n ensures n in keys - {last} <==> n in init {
          if n in init {
            var k :| 0 <= k < |init| && init[k] == n;
            assert s[k] == n && k < |s| - 1;
          }
          if n in s && n != last {
            var k :| 0 <= k < |s| && s[k] == n;
            assert k != |s| - 1;
            assert init[k] == n;
          }
        }
      }
      DistinctSeqCardinality(init, keys - {last});
    } else {
      assert forall n :: n !in keys;
      assert keys == {};
    }
  }

  /** save then load returns the saved key; other names are unaffected. */
  lemma MemorySaveLoad(st: MemoryStore, username: string, key: Jwk, other: string)
    requires MemoryValid(st)
    requires other != username
    ensures MemoryLoad(MemorySave(st, username, key), username) == Some(key)
    ensures MemoryLoad(MemorySave(st, username, key), other) == MemoryLoad(st, other)
  {
  }

  /** A later save for the same name overwrites the earlier one and does not
      list the name twice. */
  lemma MemoryOverwrite(st: MemoryStore, username: string, k1: Jwk, k2: Jwk)
    requires MemoryValid(st)
    ensures MemoryLoad(MemorySave(MemorySave(st, username, k1), username, k2), username) == Some(k2)
    ensures MemoryList(MemorySave(MemorySave(st, username, k1), username, k2))
         == MemoryList(MemorySave(st, username, k1))
  {
  }

  // ---------------------------------------------------------------------
  // Paths

  /** One step of `path.resolve` over a segment: empty and "." segments
      vanish, ".." drops the last segment (never above the root). */
  function ResolveStep(acc: seq<string>, segment: string): seq<string>
  {
    if segment == "" || segment == "." then acc
    else if segment == ".." then (if |acc| == 0 then acc else acc[..|acc| - 1])
    else acc + [segment]
  }

  /** Normalising an absolute path given as segments. */
  function Resolve(segments: seq<string>): (r: seq<string>)
    ensures forall k :: 0 <= k < |r| ==> r[k] != "" && r[k] != "." && r[k] != ".."
    decreases |segments|
  {
    if |segments| == 0 then []
    else ResolveStep(Resolve(segments[..|segments| - 1]), segments[|segments| - 1])
  }

  /** The string `path.resolve` returns for resolved segments. */
  function PathString(resolved: seq<string>): string
  {
    "/" + Join(resolved, '/')
  }

  /** `path.join(keyDir, `${username}.jwk`)` as segments. */
  function KeyPath(keyDir: seq<string>, username: string): seq<string>
  {
    keyDir + Split(username + KeyFileSuffix, '/')
  }

  /** `resolved.startsWith(path.resolve(keyDir) + path.sep)`. */
  predicate KeyPathContained(keyDir: seq<string>, username: string)
  {
    IsPrefix(PathString(Resolve(keyDir)) + "/", PathString(Resolve(KeyPath(keyDir, username))))
  }

  lemma {:induction false} JoinAppend(parts: seq<string>, last: string, sep: char)
    requires |parts| >= 1
    ensures Join(parts + [last], sep) == Join(parts, sep) + [sep] + last
    decreases |parts|
  {
    if |parts| > 1 {
      assert (parts + [last])[1..] == parts[1..] + [last];
      JoinAppend(parts[1..], last, sep);
    } else {
      assert (parts + [last])[1..] == [last];
    }
  }

  /** The file name of a valid user: one plain segment not starting with '/'. */
  lemma KeyFileNameIsPlain(username: string)
    requires IsValidUsername(username)
    ensures var file := username + KeyFileSuffix;
      && '/' !in file && file[0] != '/'
      && file != "" && file != "." && file != ".."
      && Split(file, '/') == [file]
  {
    var file := username + KeyFileSuffix;
    ValidUsernameHasNoPathSyntax(username);
    assert forall k :: 0 <= k < |file| ==> file[k] == (if k < |username| then username[k] else KeyFileSuffix[k - |username|]);
    assert '/' !in file;
    assert |file| >= 5;
    SplitWithoutSeparator(file, '/');
  }

  /** Appending a plain segment appends it to the resolved path. */
  lemma ResolveAppendPlain(dir: seq<string>, segment: string)
    requires segment != "" && segment != "." && segment != ".."
    ensures Resolve(dir + [segment]) == Resolve(dir) + [segment]
  {
    assert (dir + [segment])[..|dir|] == dir;
  }

  /** The rendered path of a child is the parent's path, '/', the name. */
  lemma PathStringAppend(resolved: seq<string>, name: string)
    requires |resolved| > 0
    ensures PathString(resolved + [name]) == PathString(resolved) + "/" + name
  {
    JoinAppend(resolved, name, '/');
  }

  /** For every valid name the key file resolves strictly inside the key
      directory whenever that directory is not the root; for the root the
      check `startsWith('/' + '/')` refuses every name. So after validation
      the "Invalid key path" branch is reachable only for the root. */
  lemma ValidNameStaysInside(keyDir: seq<string>, username: string)
    requires IsValidUsername(username)
    ensures KeyPathContained(keyDir, username) <==> |Resolve(keyDir)| > 0
    ensures Resolve(KeyPath(keyDir, username)) == Resolve(keyDir) + [username + KeyFileSuffix]
  {
    var file := username + KeyFileSuffix;
    KeyFileNameIsPlain(username);
    ResolveAppendPlain(keyDir, file);
    var dir := Resolve(keyDir);
    if |dir| > 0 {
      PathStringAppend(dir, file);
    } else {
      assert PathString(dir + [file]) == "/" + file;
      assert ("/" + file)[1] == file[0];
    }
  }

  function CountChar(s: string, c: char): nat
    decreases |s|
  {
    if |s| == 0 then 0 else (if s[0] == c then 1 else 0) + CountChar(s[1..], c)
  }

  lemma {:induction false} CountCharAppend(a: string, b: string, c: char)
    ensures CountChar(a + b, c) == CountChar(a, c) + CountChar(b, c)
    decreases |a|
  {
    if |a| > 0 {
      assert (a + b)[1..] == a[1..] + b;
      assert (a + b)[0] == a[0];
      CountCharAppend(a[1..], b, c);
    } else {
      assert a + b == b;
    }
  }

  lemma {:induction false} CountCharAbsent(s: string, c: char)
    requires c !in s
    ensures CountChar(s, c) == 0
    decreases |s|
  {
    if |s| > 0 {
      assert c !in s[1..];
      CountCharAbsent(s[1..], c);
    }
  }

  /** Joining n separator-free pieces puts n - 1 separators in. */
  lemma {:induction false} CountJoin(parts: seq<string>, sep: char)
    requires |parts| >= 1
    requires forall k :: 0 <= k < |parts| ==> sep !in parts[k]
    ensures CountChar(Join(parts, sep), sep) == |parts| - 1
    decreases |parts|
  {
    CountCharAbsent(parts[0], sep);
    if |parts| > 1 {
      CountJoin(parts[1..], sep);
      CountCharAppend(parts[0] + [sep], Join(parts[1..], sep), sep);
      CountCharAppend(parts[0], [sep], sep);
    }
  }

  /** The rendered path of n >= 1 slash-free segments has n slashes. */
  lemma CountPathString(resolved: seq<string>)
    requires forall k :: 0 <= k < |resolved| ==> '/' !in resolved[k]
    ensures CountChar(PathString(resolved), '/') == if |resolved| == 0 then 1 else |resolved|
  {
    CountCharAppend("/", Join(resolved, '/'), '/');
    if |resolved| > 0 {
      CountJoin(resolved, '/');
    }
  }

  predicate SlashFree(segments: seq<string>)
  {
    forall k :: 0 <= k < |segments| ==> '/' !in segments[k]
  }

  lemma {:induction false} ResolveSlashFree(segments: seq<string>)
    requires SlashFree(segments)
    ensures SlashFree(Resolve(segments))
    decreases |segments|
  {
    if |segments| > 0 {
      ResolveSlashFree(segments[..|segments| - 1]);
    }
  }

  /** The containment check only admits a path strictly deeper than the
      directory, and never one directly under the root. */
  lemma ContainedIsDeeper(dir: seq<string>, path: seq<string>)
    requires SlashFree(dir) && SlashFree(path)
    requires IsPrefix(PathString(dir) + "/", PathString(path))
    ensures |path| >= |dir| + 1 && |path| >= 2
  {
    var whole := PathString(path);
    var pre := PathString(dir) + "/";
    assert whole == pre + whole[|pre|..];
    CountCharAppend(pre, whole[|pre|..], '/');
    CountCharAppend(PathString(dir), "/", '/');
    CountPathString(dir);
    CountPathString(path);
  }

  /** A name that climbs one level ("../" followed by a valid name) would
      resolve beside the key directory, or into the root, and the
      containment check refuses it. */
  lemma ParentTraversalRefused(keyDir: seq<string>, name: string)
    requires SlashFree(keyDir)
    requires IsValidUsername(name)
    ensures !KeyPathContained(keyDir, "../" + name)
  {
    var file := name + KeyFileSuffix;
    KeyFileNameIsPlain(name);
    assert "../" + name + KeyFileSuffix == ".." + ['/'] + file;
    assert '/' !in "..";
    SplitAtFirstSeparator("..", '/', file);
    var path := KeyPath(keyDir, "../" + name);
    assert path == (keyDir + [".."]) + [file];
    ResolveAppendPlain(keyDir + [".."], file);
    assert (keyDir + [".."])[..|keyDir|] == keyDir;
    assert |Resolve(path)| <= |Resolve(keyDir)| || |Resolve(path)| == 1;
    assert SlashFree(path);
    ResolveSlashFree(keyDir);
    ResolveSlashFree(path);
    if KeyPathContained(keyDir, "../" + name) {
      ContainedIsDeeper(Resolve(keyDir), Resolve(path));
    }
  }

  // ---------------------------------------------------------------------
  // FileSystemKeyStorage

  /** A file in the key directory: a parseable key, or something
      `readFile`/`JSON.parse` fails on. */
  datatype FileBody = KeyFile(key: Jwk) | Unreadable

  /** The backend's view of the disk: the configured key directory, whether
      it exists, and the files in it by name. */
  datatype FsStore = FsStore(keyDir: seq<string>, dirExists: bool, files: map<string, FileBody>)

  /** `FileSystemKeyStorage.save`: validate the name (nothing is touched on
      failure), create the directory, check containment, write the file. */
  function FsSave(st: FsStore, username: string, key: Jwk): (r: (Result<()>, FsStore))
    ensures !IsValidUsername(username) ==> r == (Failure(InvalidUsernameFormat), st)
    ensures r.0.Success? <==> IsValidUsername(username) && |Resolve(st.keyDir)| > 0
    ensures r.0.Success? ==> r.1 == st.(dirExists := true, files := st.files[username + KeyFileSuffix := KeyFile(key)])
    ensures r.0.Failure? ==> r.1.files == st.files
  {
    if !IsValidUsername(username) then (Failure(InvalidUsernameFormat), st)
    else
      var made := st.(dirExists := true);
      ValidNameStaysInside(st.keyDir, username);
      if !KeyPathContained(st.keyDir, username) then (Failure(InvalidKeyPath), made)
      else (Success(()), made.(files := made.files[username + KeyFileSuffix := KeyFile(key)]))
  }

  /** `FileSystemKeyStorage.load`: an invalid name fails and so does every
      name under the root directory (the catch block re-throws both errors);
      a missing or unreadable file gives null, and a readable one its key. */
  function FsLoad(st: FsStore, username: string): (r: Result<Option<Jwk>>)
    ensures !IsValidUsername(username) ==> r == Failure(InvalidUsernameFormat)
    ensures IsValidUsername(username) && |Resolve(st.keyDir)| == 0 ==> r == Failure(InvalidKeyPath)
    ensures IsValidUsername(username) && |Resolve(st.keyDir)| > 0 ==>
      r.Success? && (r.value.Some? <==> st.dirExists && username + KeyFileSuffix in st.files
                                          && st.files[username + KeyFileSuffix].KeyFile?)
    ensures r.Success? && r.value.Some? ==> r.value == Some(st.files[username + KeyFileSuffix].key)
  {
    if !IsValidUsername(username) then Failure(InvalidUsernameFormat)
    else
      ValidNameStaysInside(st.keyDir, username);
      if !KeyPathContained(st.keyDir, username) then Failure(InvalidKeyPath)
      else
        var file := username + KeyFileSuffix;
        if st.dirExists && file in st.files && st.files[file].KeyFile? then Success(Some(st.files[file].key))
        else Success(None)
  }

  /** `FileSystemKeyStorage.list` over what `readdir` returned (`None` when
      it threw): keep the names ending in ".jwk", remove the first ".jwk". */
  function FsList(listing: Option<seq<string>>): (r: seq<string>)
    ensures listing.None? ==> r == []
    ensures listing.Some? ==> |r| <= |listing.value|
    ensures listing.Some? ==> forall n :: n in r <==>
      exists f :: f in listing.value && EndsWith(f, KeyFileSuffix) && n == ReplaceFirst(f, KeyFileSuffix, "")
  {
    match listing
    case None => []
    case Some(names) => StripKeyFiles(names)
  }

  function StripKeyFiles(names: seq<string>): (r: seq<string>)
    ensures |r| <= |names|
    ensures forall n :: n in r <==>
      exists f :: f in names && EndsWith(f, KeyFileSuffix) && n == ReplaceFirst(f, KeyFileSuffix, "")
    decreases |names|
  {
    if |names| == 0 then []
    else
      var rest := StripKeyFiles(names[1..]);
      assert forall f :: f in names <==> f == names[0] || f in names[1..];
      if EndsWith(names[0], KeyFileSuffix) then [ReplaceFirst(names[0], KeyFileSuffix, "")] + rest
      else rest
  }

  /** Every file in the directory was written by `FsSave`. */
  ghost predicate FsWellFormed(st: FsStore)
  {
    forall f :: f in st.files ==>
      |f| >= |KeyFileSuffix| && EndsWith(f, KeyFileSuffix) && IsValidUsername(f[..|f| - |KeyFileSuffix|])
  }

  /** The names saved in a well-formed store. */
  ghost function SavedNames(st: FsStore): set<string>
  {
    set f | f in st.files && |f| >= |KeyFileSuffix| :: f[..|f| - |KeyFileSuffix|]
  }

  lemma FsSavePreservesWellFormed(st: FsStore, username: string, key: Jwk)
    requires FsWellFormed(st)
    ensures FsWellFormed(FsSave(st, username, key).1)
    ensures FsSave(st, username, key).0.Success? ==>
      SavedNames(FsSave(st, username, key).1) == SavedNames(st) + {username}
  {
    var file := username + KeyFileSuffix;
    assert file[..|file| - |KeyFileSuffix|] == username;
    assert EndsWith(file, KeyFileSuffix);
  }

  /** Removing ".jwk" from a file the backend wrote gives the user's name. */
  lemma StripWrittenFile(f: string)
    requires |f| >= |KeyFileSuffix| && EndsWith(f, KeyFileSuffix)
    requires IsValidUsername(f[..|f| - |KeyFileSuffix|])
    ensures ReplaceFirst(f, KeyFileSuffix, "") == f[..|f| - |KeyFileSuffix|]
  {
    var name := f[..|f| - |KeyFileSuffix|];
    ValidUsernameHasNoPathSyntax(name);
    assert f == name + KeyFileSuffix;
    ReplaceFirstOfSuffix(name, KeyFileSuffix);
  }

  lemma ListedNameIsSaved(st: FsStore, listing: seq<string>, n: string)
    requires FsWellFormed(st)
    requires forall f :: f in listing ==> f in st.files
    requires n in FsList(Some(listing))
    ensures n in SavedNames(st)
  {
    var f :| f in listing && EndsWith(f, KeyFileSuffix) && n == ReplaceFirst(f, KeyFileSuffix, "");
    assert f in st.files;
    StripWrittenFile(f);
  }

  lemma SavedNameIsListed(st: FsStore, listing: seq<string>, n: string)
    requires FsWellFormed(st)
    requires forall f :: f in st.files ==> f in listing
    requires n in SavedNames(st)
    ensures n in FsList(Some(listing))
  {
    var f :| f in st.files && |f| >= |KeyFileSuffix| && n == f[..|f| - |KeyFileSuffix|];
    StripWrittenFile(f);
    assert f in listing;
  }

  /** Listing a well-formed directory gives back exactly the saved names. */
  lemma FsListOfWellFormed(st: FsStore, listing: seq<string>)
    requires FsWellFormed(st)
    requires forall f :: f in listing <==> f in st.files
    ensures forall n :: n in FsList(Some(listing)) <==> n in SavedNames(st)
  {
    forall n
      ensures n in FsList(Some(listing)) <==> n in SavedNames(st)
    {
      if n in FsList(Some(listing)) {
        ListedNameIsSaved(st, listing, n);
      }
      if n in SavedNames(st) {
        SavedNameIsListed(st, listing, n);
      }
    }
  }

  // ---------------------------------------------------------------------
  // Either backend, as `KeyStorage`

  datatype KeyStorage = Memory(mem: MemoryStore) | FileSystem(fs: FsStore)

  /** The in-memory order is consistent, and a missing key directory holds
      no files. */
  ghost predicate StorageValid(st: KeyStorage)
  {
    match st
    case Memory(m) => MemoryValid(m)
    case FileSystem(fs) => !fs.dirExists ==> fs.files == map[]
  }

  /** `storage.save`: afterwards the name loads back the key, and every
      other name loads what it loaded before; a failed save changes what no
      name loads. */
  function Save(st: KeyStorage, username: string, key: Jwk): (r: (Result<()>, KeyStorage))
    requires StorageValid(st)
    ensures StorageValid(r.1)
    ensures r.0.Success? ==> Load(r.1, username) == Success(Some(key))
    ensures forall other :: other != username ==> Load(r.1, other) == Load(st, other)
    ensures r.0.Failure? ==> forall n :: Load(r.1, n) == Load(st, n)
    ensures st.Memory? ==> r.0.Success?
  {
    match st
    case Memory(m) => (Success(()), Memory(MemorySave(m, username, key)))
    case FileSystem(fs) =>
      var (res, fs') := FsSave(fs, username, key);
      assert forall other :: other != username ==> other + KeyFileSuffix != username + KeyFileSuffix by {
        forall other | other + KeyFileSuffix == username + KeyFileSuffix
          ensures other == username
        {
          assert other == (other + KeyFileSuffix)[..|other|];
        }
      }
      (res, FileSystem(fs'))
  }

  /** `storage.load`. */
  function Load(st: KeyStorage, username: string): Result<Option<Jwk>>
  {
    match st
    case Memory(m) => Success(MemoryLoad(m, username))
    case FileSystem(fs) => FsLoad(fs, username)
  }

  /** The in-memory backend performs no name validation: a name the
      filesystem backend refuses is stored and loaded back. */
  lemma MemoryAcceptsAnyName(m: MemoryStore, key: Jwk, fs: FsStore)
    requires MemoryValid(m)
    ensures var name := "../../../etc/passwd";
      && Save(Memory(m), name, key).0.Success?
      && Load(Save(Memory(m), name, key).1, name) == Success(Some(key))
      && FsSave(fs, name, key).0 == Failure(InvalidUsernameFormat)
  {
    RejectedExamples();
  }
}
