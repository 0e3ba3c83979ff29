/** CachingTestFinder: discovers the tests of a source file through a wrapped
    finder, remembering the result in memory for the rest of the process and
    on disk under a name derived from the file's path, its contents and a
    version of the discovery code itself. */
module CachingFinder {
  import opened Text
  import opened TestCollections

  /** The byte "\0" that separates the parts of a hashed string. */
  const Nul: char := '\0'
  /** DIRECTORY_SEPARATOR. */
  const DirectorySeparator: string := "/"

  /** A discovery either yields a collection or fails with an error that the
      caller receives unchanged. */
  datatype Result<T> = Success(value: T) | Failure(error: string)

  /** The PHP functions the finder relies on, and the source files of the
      discovery code that the version covers (the directory scan in
      cacheVersion() is not modelled; its outcome is this list). */
  datatype Runtime = Runtime(
    md5: string -> string,
    serialize: TestCollection -> string,
    unserialize: string -> Option<TestCollection>,
    finderSources: seq<string>)

  /** What md5() returns: 32 lower-case hexadecimal digits. */
  predicate IsHexDigest(h: string)
  {
    |h| == 32 && forall i :: 0 <= i < |h| ==> h[i] in "0123456789abcdef"
  }

  /** The runtime behaves as PHP's does: md5() yields hex digests and
      unserialize() undoes serialize(). */
  ghost predicate Sound(rt: Runtime)
  {
    && (forall s :: IsHexDigest(rt.md5(s)))
    && (forall c :: rt.unserialize(rt.serialize(c)) == Some(c))
  }

  /** file_get_contents() as the code uses it: a missing file yields false,
      which concatenation and implode() turn into the empty string. */
  function Contents(files: map<string, string>, path: string): (c: string)
    ensures path !in files ==> c == ""
  {
    if path in files then files[path] else ""
  }

  /** `$filename . "\0" . $contents . "\0" . $version`. */
  function Fingerprint(filename: string, contents: string, version: string): (r: string)
    ensures filename + [Nul] <= r
    ensures |r| > |version| && r[|r| - |version| - 1] == Nul && r[|r| - |version|..] == version
  {
    filename + [Nul] + contents + [Nul] + version
  }

  /** The hashed string determines the path, the contents and the version:
      paths and versions carry no NUL, so the first and the last NUL are the
      separators. */
  lemma FingerprintInjective(f1: string, c1: string, v1: string, f2: string, c2: string, v2: string)
    requires Nul !in f1 && Nul !in f2 && Nul !in v1 && Nul !in v2
    requires Fingerprint(f1, c1, v1) == Fingerprint(f2, c2, v2)
    ensures f1 == f2 && c1 == c2 && v1 == v2
  {
    SplitAtLastSeparator(f1 + [Nul] + c1, v1, f2 + [Nul] + c2, v2, Nul);
    SplitAtFirstSeparator(f1, c1, f2, c2, Nul);
  }

  lemma HexDigestHasNoNul(h: string)
    requires IsHexDigest(h)
    ensures Nul !in h
  {
  }

  /** `$buffer` after the loop of cacheVersion(): the path of every source
      file followed by its contents. */
  function SourceBuffer(sources: seq<string>, files: map<string, string>): (buffer: seq<string>)
    ensures |buffer| == 2 * |sources|
    ensures forall i :: 0 <= i < |sources| ==>
              buffer[2 * i] == sources[i] && buffer[2 * i + 1] == Contents(files, sources[i])
  {
    if sources == [] then []
    else
      var init, last := sources[..|sources| - 1], sources[|sources| - 1];
      SourceBuffer(init, files) + [last, Contents(files, last)]
  }

  /** The version computed from scratch: the hash of the sources joined by NUL. */
  function VersionHash(rt: Runtime, files: map<string, string>): (v: string)
    ensures Sound(rt) ==> IsHexDigest(v)
  {
    rt.md5(Implode([Nul], SourceBuffer(rt.finderSources, files)))
  }

  /** What cacheVersion() returns given the static field: the memoized value
      when there is one, a fresh hash otherwise. */
  function CurrentVersion(memo: Option<string>, rt: Runtime, files: map<string, string>): (v: string)
    ensures memo.Some? ==> v == memo.value
    ensures memo.None? ==> v == VersionHash(rt, files)
  {
    if memo.Some? then memo.value else VersionHash(rt, files)
  }

  /** cacheFile(): the cache directory, a separator, and the hash of the
      fingerprint. */
  function CacheFilePath(directory: string, rt: Runtime, filename: string, contents: string, version: string): (path: string)
    ensures directory + DirectorySeparator <= path
    ensures path[|directory + DirectorySeparator|..] == rt.md5(Fingerprint(filename, contents, version))
  {
    directory + DirectorySeparator + rt.md5(Fingerprint(filename, contents, version))
  }

  /** read(): the collection stored at a path, or None (PHP's false) when the
      file is missing or does not unserialize. */
  function Stored(rt: Runtime, files: map<string, string>, path: string): (r: Option<TestCollection>)
    ensures path !in files ==> r == None
  {
    if path in files then rt.unserialize(files[path]) else None
  }

  // ---------------------------------------------------------------------
  // The state findTestsIn() works on, and what one call does to it

  /** The configuration of one finder: its cache directory, the runtime, and
      what the wrapped finder discovers in a file given its path and contents. */
  datatype Setup = Setup(directory: string, runtime: Runtime, discover: (string, string) -> Result<TestCollection>)

  /** Everything findTestsIn() reads or changes: the in-memory cache, the
      files on disk, the static version field and the number of calls made to
      the wrapped finder. */
  datatype CacheState = CacheState(
    memory: map<string, TestCollection>,
    disk: map<string, string>,
    version: Option<string>,
    calls: nat)

  /** The cache file findTestsIn() uses for a file in a given state. */
  function EntryPath(setup: Setup, s: CacheState, filename: string): string
  {
    CacheFilePath(setup.directory, setup.runtime, filename, Contents(s.disk, filename),
                  CurrentVersion(s.version, setup.runtime, s.disk))
  }

  /** One call of findTestsIn(): the result and the state after it. */
  function Find(setup: Setup, s: CacheState, filename: string): (out: (Result<TestCollection>, CacheState))
    ensures out.1.calls == s.calls || out.1.calls == s.calls + 1
    ensures out.1.calls == s.calls + 1 ==> filename !in s.memory
    ensures out.0.Success? ==> filename in out.1.memory && out.1.memory[filename] == out.0.value
  {
    if filename in s.memory then (Success(s.memory[filename]), s)
    else
      var path := EntryPath(setup, s, filename);
      var versioned := s.(version := Some(CurrentVersion(s.version, setup.runtime, s.disk)));
      var stored := Stored(setup.runtime, s.disk, path);
      if stored.Some? then
        (Success(stored.value), versioned.(memory := s.memory[filename := stored.value]))
      else
        var found := setup.discover(filename, Contents(s.disk, filename));
        var counted := versioned.(calls := s.calls + 1);
        if found.Failure? then (Failure(found.error), counted)
        else
          (Success(found.value),
           counted.(memory := s.memory[filename := found.value],
                    disk := s.disk[path := setup.runtime.serialize(found.value)]))
  }

  /** After a successful call the file is in the in-memory cache with the
      returned collection; a failed discovery is not remembered. */
  lemma FindRemembers(setup: Setup, s: CacheState, filename: string)
    ensures var (r, t) := Find(setup, s, filename);
      && (r.Success? ==> filename in t.memory && t.memory[filename] == r.value)
      && (r.Failure? ==> t.memory == s.memory)
  {
  }

  /** An in-memory hit returns the remembered collection and changes nothing:
      no disk access, no discovery. */
  lemma FindMemoryHit(setup: Setup, s: CacheState, filename: string)
    requires filename in s.memory
    ensures Find(setup, s, filename) == (Success(s.memory[filename]), s)
  {
  }

  /** A disk hit returns the stored collection without calling the wrapped
      finder and without writing anything. */
  lemma FindDiskHit(setup: Setup, s: CacheState, filename: string)
    requires filename !in s.memory
    requires Stored(setup.runtime, s.disk, EntryPath(setup, s, filename)).Some?
    ensures var (r, t) := Find(setup, s, filename);
      && r == Success(Stored(setup.runtime, s.disk, EntryPath(setup, s, filename)).value)
      && t.calls == s.calls && t.disk == s.disk
  {
  }

  /** A miss in both caches calls the wrapped finder exactly once; its
      collection is returned, remembered and written, serialized, to the
      cache file. */
  lemma FindFullMiss(setup: Setup, s: CacheState, filename: string)
    requires filename !in s.memory
    requires Stored(setup.runtime, s.disk, EntryPath(setup, s, filename)).None?
    ensures var (r, t) := Find(setup, s, filename);
      var found := setup.discover(filename, Contents(s.disk, filename));
      && t.calls == s.calls + 1
      && (found.Success? ==>
            && r == found && t.memory[filename] == found.value
            && t.disk == s.disk[EntryPath(setup, s, filename) := setup.runtime.serialize(found.value)])
      && (found.Failure? ==> r == found && t.disk == s.disk)
  {
  }

  /** A call changes the in-memory entry of its own file only, and at most
      the one disk entry of that file. */
  lemma FindIsLocal(setup: Setup, s: CacheState, filename: string)
    ensures var (r, t) := Find(setup, s, filename);
      && (forall g :: g != filename ==> (g in t.memory <==> g in s.memory))
      && (forall g :: g != filename && g in s.memory ==> t.memory[g] == s.memory[g])
      && (forall p :: p != EntryPath(setup, s, filename) ==> (p in t.disk <==> p in s.disk))
      && (forall p :: p != EntryPath(setup, s, filename) && p in s.disk ==> t.disk[p] == s.disk[p])
  {
  }

  /** Two successive calls for the same file return the same collection, and
      the second changes nothing. */
  lemma FindTwice(setup: Setup, s: CacheState, filename: string)
    requires Find(setup, s, filename).0.Success?
    ensures var (r, t) := Find(setup, s, filename);
      Find(setup, t, filename) == (r, t)
  {
  }

  /** A new process, which starts with an empty in-memory cache and no
      version, finds the collection an earlier process found for a file and
      does not call the wrapped finder, provided neither the file nor the
      discovery sources lie in the cache directory. */
  lemma NewProcessReusesDisk(setup: Setup, s: CacheState, filename: string)
    requires Sound(setup.runtime)
    requires filename !in s.memory && s.version == None
    requires Find(setup, s, filename).0.Success?
    requires forall p :: p in setup.runtime.finderSources ==> !(setup.directory + DirectorySeparator <= p)
    requires !(setup.directory + DirectorySeparator <= filename)
    ensures var (r, t) := Find(setup, s, filename);
      var restarted := CacheState(map[], t.disk, None, t.calls);
      Find(setup, restarted, filename) == (r, restarted.(memory := map[filename := r.value], version := t.version))
  {
    var (r, t) := Find(setup, s, filename);
    var restarted := CacheState(map[], t.disk, None, t.calls);
    var path := EntryPath(setup, s, filename);
    CachePathInDirectory(setup, s, filename);
    assert path !in setup.runtime.finderSources && path != filename;
    SourceBufferIgnoresOtherFiles(setup.runtime.finderSources, s.disk, path, t.disk);
    assert Contents(t.disk, filename) == Contents(s.disk, filename);
    assert EntryPath(setup, restarted, filename) == path;
  }

  /** A cache file lies in the cache directory. */
  lemma CachePathInDirectory(setup: Setup, s: CacheState, filename: string)
    ensures setup.directory + DirectorySeparator <= EntryPath(setup, s, filename)
  {
  }

  /** With md5 returning hex digests, a cache file lies directly in the cache
      directory: its name holds no further separator. */
  lemma CacheFileNameHasNoSeparator(setup: Setup, s: CacheState, filename: string)
    requires Sound(setup.runtime)
    ensures DirectorySeparator[0] !in EntryPath(setup, s, filename)[|setup.directory| + 1..]
  {
    var path := EntryPath(setup, s, filename);
    var digest := setup.runtime.md5(Fingerprint(filename, Contents(s.disk, filename),
                                                CurrentVersion(s.version, setup.runtime, s.disk)));
    assert path[|setup.directory| + 1..] == digest;
    assert IsHexDigest(digest);
  }

  /** The version depends on the contents of the source files only. */
  lemma {:induction false} SourceBufferIgnoresOtherFiles(sources: seq<string>, files: map<string, string>, path: string, files': map<string, string>)
    requires path !in sources
    requires forall p :: p != path ==> (p in files' <==> p in files) && (p in files ==> files'[p] == files[p])
    ensures SourceBuffer(sources, files') == SourceBuffer(sources, files)
  {
    if sources != [] {
      var init := sources[..|sources| - 1];
      assert forall p :: p in init ==> p in sources;
      SourceBufferIgnoresOtherFiles(init, files, path, files');
      assert sources[|sources| - 1] in sources;
    }
  }

  /** When the file's contents change, the strings hashed for the two cache
      files differ, so the two cache files coincide exactly when md5 collides
      on those two strings: without such a collision an entry stored for the
      old contents is never used for the new ones. */
  lemma ChangedContentsChangeEntry(setup: Setup, filename: string, c1: string, c2: string, version: string)
    requires Nul !in filename && IsHexDigest(version)
    requires c1 != c2
    ensures Fingerprint(filename, c1, version) != Fingerprint(filename, c2, version)
    ensures CacheFilePath(setup.directory, setup.runtime, filename, c1, version)
            == CacheFilePath(setup.directory, setup.runtime, filename, c2, version)
        <==> setup.runtime.md5(Fingerprint(filename, c1, version))
             == setup.runtime.md5(Fingerprint(filename, c2, version))
  {
    HexDigestHasNoNul(version);
    if Fingerprint(filename, c1, version) == Fingerprint(filename, c2, version) {
      FingerprintInjective(filename, c1, version, filename, c2, version);
    }
    var prefix := setup.directory + DirectorySeparator;
    var h1 := setup.runtime.md5(Fingerprint(filename, c1, version));
    var h2 := setup.runtime.md5(Fingerprint(filename, c2, version));
    if prefix + h1 == prefix + h2 {
      assert h1 == (prefix + h1)[|prefix|..] == (prefix + h2)[|prefix|..] == h2;
    }
  }

  // ---------------------------------------------------------------------
  // The objects

  /** The files the process sees: path => contents. */
  class FileSystem {
    var files: map<string, string>

    constructor (files: map<string, string>)
      ensures this.files == files
    {
      this.files := files;
    }

    /** file_put_contents(): the file now holds exactly the given contents. */
    method PutContents(path: string, contents: string)
      modifies this
      ensures files == old(files)[path := contents]
    {
      files := files[path := contents];
    }
  }

  /** The static property CachingTestFinder::$cacheVersion, shared by every
      finder of the process; it starts out null. */
  class VersionField {
    var value: Option<string>

    constructor ()
      ensures value == None
    {
      value := None;
    }
  }

  /** The wrapped TestFinder: what it discovers in a file depends on the
      file's path and contents; its calls are counted. */
  class WrappedFinder {
    const discover: (string, string) -> Result<TestCollection>
    const fs: FileSystem
    var calls: nat

    constructor (discover: (string, string) -> Result<TestCollection>, fs: FileSystem)
      ensures this.discover == discover && this.fs == fs && calls == 0
    {
      this.discover := discover;
      this.fs := fs;
      calls := 0;
    }

    method FindTestsIn(filename: string) returns (r: Result<TestCollection>)
      modifies this
      ensures r == discover(filename, Contents(fs.files, filename))
      ensures calls == old(calls) + 1
    {
      calls := calls + 1;
      r := discover(filename, Contents(fs.files, filename));
    }
  }

  class CachingTestFinder {
    var cache: map<string, TestCollection>
    const testFinder: WrappedFinder
    const directory: string
    const fs: FileSystem
    const runtime: Runtime
    const versionField: VersionField

    /** The wrapped finder reads the same files as this one. */
    ghost predicate Valid()
    {
      testFinder.fs == fs
    }

    /** Creating the cache directory is not modelled. */
    constructor (directory: string, testFinder: WrappedFinder, runtime: Runtime, versionField: VersionField)
      ensures Valid() && cache == map[]
      ensures this.directory == directory && this.testFinder == testFinder
      ensures this.runtime == runtime && this.versionField == versionField
    {
      cache := map[];
      this.directory := directory;
      this.testFinder := testFinder;
      this.fs := testFinder.fs;
      this.runtime := runtime;
      this.versionField := versionField;
    }

    function Config(): Setup
    {
      Setup(directory, runtime, testFinder.discover)
    }

    function State(): CacheState
      reads this, fs, versionField, testFinder
    {
      CacheState(cache, fs.files, versionField.value, testFinder.calls)
    }

    /** CachingTestFinder::findTestsIn(). */
    method FindTestsIn(filename: string) returns (r: Result<TestCollection>)
      requires Valid()
      modifies this, fs, versionField, testFinder
      ensures (r, State()) == Find(Config(), old(State()), filename)
    {
      if filename !in cache {
        var error := Process(filename);
        if error.Some? {
          return Failure(error.value);
        }
      }
      return Success(cache[filename]);
    }

    /** CachingTestFinder::process(), for a file not in the in-memory cache:
        the stored collection if there is one, otherwise the wrapped finder's,
        which is then written to disk. A discovery error is returned and
        nothing is remembered. */
    method Process(filename: string) returns (error: Option<string>)
      requires Valid() && filename !in cache
      modifies this, fs, versionField, testFinder
      ensures error.None? ==> filename in cache
      ensures Find(Config(), old(State()), filename)
           == (if error.None? then Success(cache[filename]) else Failure(error.value), State())
    {
      var stored := Read(filename);
      if stored.Some? {
        cache := cache[filename := stored.value];
        return None;
      }
      var found := testFinder.FindTestsIn(filename);
      if found.Failure? {
        return Some(found.error);
      }
      cache := cache[filename := found.value];
      Write(filename, cache[filename]);
      return None;
    }

    /** CachingTestFinder::read(): the collection stored in the file's cache
        file, None when there is none or it does not unserialize. */
    method Read(filename: string) returns (r: Option<TestCollection>)
      modifies versionField
      ensures versionField.value == Some(CurrentVersion(old(versionField.value), runtime, fs.files))
      ensures r == Stored(runtime, fs.files,
                          CacheFilePath(directory, runtime, filename, Contents(fs.files, filename), versionField.value.value))
    {
      var cacheFile := CacheFile(filename);
      if cacheFile !in fs.files {
        return None;
      }
      return runtime.unserialize(fs.files[cacheFile]);
    }

    /** CachingTestFinder::write(): the serialized collection goes to the
        file's cache file, which is worked out again. */
    method Write(filename: string, tests: TestCollection)
      modifies fs, versionField
      ensures versionField.value == Some(CurrentVersion(old(versionField.value), runtime, old(fs.files)))
      ensures fs.files
           == old(fs.files)[CacheFilePath(directory, runtime, filename, Contents(old(fs.files), filename),
                                          versionField.value.value) := runtime.serialize(tests)]
    {
      var cacheFile := CacheFile(filename);
      fs.PutContents(cacheFile, runtime.serialize(tests));
    }

    /** CachingTestFinder::cacheFile(). */
    method CacheFile(filename: string) returns (path: string)
      modifies versionField
      ensures versionField.value == Some(CurrentVersion(old(versionField.value), runtime, fs.files))
      ensures path == CacheFilePath(directory, runtime, filename, Contents(fs.files, filename), versionField.value.value)
    {
      var version := CacheVersion(versionField, fs, runtime);
      path := directory + DirectorySeparator + runtime.md5(filename + [Nul] + Contents(fs.files, filename) + [Nul] + version);
    }

    /** CachingTestFinder::cacheVersion(): the memoized value if there is one;
        otherwise the hash of every discovery source's path and contents,
        which is memoized. */
    static method CacheVersion(field: VersionField, fs: FileSystem, runtime: Runtime) returns (version: string)
      modifies field
      ensures version == CurrentVersion(old(field.value), runtime, fs.files)
      ensures field.value == Some(version)
    {
      if field.value.Some? {
        return field.value.value;
      }
      var buffer: seq<string> := [];
      for i := 0 to |runtime.finderSources|
        invariant buffer == SourceBuffer(runtime.finderSources[..i], fs.files)
      {
        var file := runtime.finderSources[i];
        buffer := buffer + [file];
        buffer := buffer + [Contents(fs.files, file)];
        assert runtime.finderSources[..i + 1][..i] == runtime.finderSources[..i];
      }
      assert runtime.finderSources[..|runtime.finderSources|] == runtime.finderSources;
      version := runtime.md5(Implode([Nul], buffer));
      field.value := Some(version);
    }
  }
}
