/**
 * The package resolver: one installable, versioned command package, its version-keyed
 * cache directory in a shared store, and the install/update cycle that fills it.
 */
module Packages {
  import opened Common
  import opened Paths
  import opened PathFormatter
  import NpmInfo

  /** The requested-version sentinel resolved against the registry by prepare. */
  const Latest: string := "latest"

  // ----- Cache directory naming -----

  /** Index of the first `c` in `s`, or -1 when `s` has none. */
  function FirstIndex(s: string, c: char): (i: int)
    ensures -1 <= i < |s|
    ensures i >= 0 ==> s[i] == c
    ensures forall j :: 0 <= j < |s| && (i < 0 || j < i) ==> s[j] != c
  {
    if s == [] then -1
    else if s[0] == c then 0
    else
      var k := FirstIndex(s[1..], c);
      assert forall j :: 0 < j < |s| ==> s[j] == s[1..][j - 1];
      if k < 0 then -1 else k + 1
  }

  /** String.prototype.replace with a string pattern: only the first `from` becomes `to`. */
  function ReplaceFirst(s: string, from: char, to: char): (r: string)
    ensures |r| == |s|
    ensures forall j :: 0 <= j < |s| ==> r[j] == (if j == FirstIndex(s, from) then to else s[j])
  {
    if s == [] then []
    else if s[0] == from then [to] + s[1..]
    else
      var rest := ReplaceFirst(s[1..], from, to);
      assert forall j :: 0 < j < |s| ==> s[j] == s[1..][j - 1];
      [s[0]] + rest
  }

  /** The directory name of name@version in the store: `_<name, first '/' as '_'>@<version>@<name>`. */
  function CacheKey(name: string, version: string): (k: string)
    ensures |k| == 2 * |name| + |version| + 3 && k[0] == '_'
  {
    "_" + ReplaceFirst(name, '/', '_') + "@" + version + "@" + name
  }

  /** The parts of a cache key: the mangled name, `@`, the version, `@`, the name. */
  lemma CacheKeyLayout(name: string, version: string)
    ensures var k := CacheKey(name, version);
            && k[1..|name| + 1] == ReplaceFirst(name, '/', '_') && k[|name| + 1] == '@'
            && k[|name| + 2..|name| + 2 + |version|] == version
            && k[|name| + 2 + |version|] == '@' && k[|name| + 3 + |version|..] == name
  {
    KeyParts(ReplaceFirst(name, '/', '_'), name, version);
  }

  /** Where each part of `_<m>@<version>@<name>` lies, for an `m` as long as the name. */
  lemma KeyParts(m: string, name: string, version: string)
    requires |m| == |name|
    ensures var k := "_" + m + "@" + version + "@" + name;
            && k[1..|name| + 1] == m && k[|name| + 1] == '@'
            && k[|name| + 2..|name| + 2 + |version|] == version
            && k[|name| + 2 + |version|] == '@' && k[|name| + 3 + |version|..] == name
  {
    var k := "_" + m + "@" + version + "@" + name;
    assert k == "_" + (m + ("@" + (version + ("@" + name))));
  }

  /** The cache directory of name@version inside `storeDir`. */
  function CachePath(sep: char, storeDir: string, name: string, version: string): (p: string)
    ensures |p| == |storeDir| + 2 * |name| + |version| + 4
    ensures p[..|storeDir|] == storeDir && p[|storeDir|] == sep
    ensures p[|storeDir| + 1..] == CacheKey(name, version)
  {
    Join(sep, storeDir, CacheKey(name, version))
  }

  /** `a + x + b == a + y + b` only when `x == y`. */
  lemma CancelSides(a: string, x: string, y: string, b: string)
    requires a + x + b == a + y + b
    ensures x == y
  {
    assert |x| == |y|;
    assert x == (a + x + b)[|a|..|a| + |x|];
    assert y == (a + y + b)[|a|..|a| + |y|];
  }

  /** For one store and one package, distinct versions have distinct cache directories. */
  lemma CachePathInjectiveInVersion(sep: char, storeDir: string, name: string, v1: string, v2: string)
    requires CachePath(sep, storeDir, name, v1) == CachePath(sep, storeDir, name, v2)
    ensures v1 == v2
  {
    var a := storeDir + [sep] + "_" + ReplaceFirst(name, '/', '_') + "@";
    var b := "@" + name;
    assert CachePath(sep, storeDir, name, v1) == a + v1 + b;
    assert CachePath(sep, storeDir, name, v2) == a + v2 + b;
    CancelSides(a, v1, v2, b);
  }

  /**
   * For one store, two (name, version) pairs whose versions hold no '@' (as no release
   * version does) never share a cache directory.
   */
  lemma CachePathInjective(sep: char, storeDir: string, n1: string, v1: string, n2: string, v2: string)
    requires '@' !in v1 && '@' !in v2
    requires CachePath(sep, storeDir, n1, v1) == CachePath(sep, storeDir, n2, v2)
    ensures n1 == n2 && v1 == v2
  {
    // When the names differ in length, the '@' that ends the longer name's prefix sits
    // at a position that the other path gives to its version, which has no '@'.
    CachePathLayout(sep, storeDir, n1, v1, |n2| - |n1| - 1);
    CachePathLayout(sep, storeDir, n2, v2, |n1| - |n2| - 1);
    if |n1| == |n2| {
      CachePathInjectiveInVersion(sep, storeDir, n1, v1, v2);
    }
  }

  /**
   * Where the parts of a cache path sit: its length, the '@' right after the name prefix,
   * the version's `i`-th character (when there is one) after that, and the name at the end.
   */
  lemma CachePathLayout(sep: char, storeDir: string, name: string, version: string, i: int)
    ensures |CachePath(sep, storeDir, name, version)| == |storeDir| + 2 * |name| + |version| + 4
    ensures CachePath(sep, storeDir, name, version)[|storeDir| + 2 + |name|] == '@'
    ensures 0 <= i < |version| ==> CachePath(sep, storeDir, name, version)[|storeDir| + 3 + |name| + i] == version[i]
    ensures CachePath(sep, storeDir, name, version)[|storeDir| + |name| + |version| + 4..] == name
  {
    var p := CachePath(sep, storeDir, name, version);
    var a := storeDir + [sep] + "_" + ReplaceFirst(name, '/', '_');
    assert p == a + "@" + version + "@" + name;
  }

  // ----- What prepare does to the version and the filesystem -----

  /** The version after prepare: the sentinel becomes the registry's latest, anything else stays. */
  function ResolvedVersion(version: string, name: string, latest: string -> string): (v: string)
    ensures version != Latest ==> v == version
    ensures version == Latest ==> v == latest(name)
  {
    if version == Latest then latest(name) else version
  }

  /** Resolving twice is resolving once, as long as the registry answers with a real version. */
  lemma ResolvedVersionIdempotent(version: string, name: string, latest: string -> string)
    requires latest(name) != Latest
    ensures ResolvedVersion(ResolvedVersion(version, name, latest), name, latest)
            == ResolvedVersion(version, name, latest)
    ensures ResolvedVersion(version, name, latest) != Latest
  {
  }

  /** The existing paths after prepare: the store directory is created when one is set. */
  function PreparedPaths(paths: set<string>, storeDir: string): (r: set<string>)
    ensures storeDir != "" ==> storeDir in r
    ensures r - {storeDir} == paths - {storeDir} && paths <= r
  {
    if storeDir != "" then paths + {storeDir} else paths
  }

  lemma PreparedPathsIdempotent(paths: set<string>, storeDir: string)
    ensures PreparedPaths(PreparedPaths(paths, storeDir), storeDir) == PreparedPaths(paths, storeDir)
  {
  }

  // ----- Entry-point discovery -----

  /**
   * getRootFilePath from `start`: the nearest manifest directory at or above `start`; its
   * `main` ("" when absent) resolved against that directory and formatted, or None.
   */
  function EntryPoint(sep: char, manifests: map<string, string>, start: string): (r: Option<string>)
    ensures r.Some? <==> PkgDir(manifests.Keys, sep, start).Some?
                         && manifests[PkgDir(manifests.Keys, sep, start).value] != ""
    ensures r.Some? ==>
              var dir := PkgDir(manifests.Keys, sep, start).value;
              r.value == FormatPath(sep, Str(Resolve(sep, dir, manifests[dir]))).s
  {
    match PkgDir(manifests.Keys, sep, start)
    case None => None
    case Some(dir) =>
      if manifests[dir] != "" then Some(FormatPath(sep, Str(Resolve(sep, dir, manifests[dir]))).s)
      else None
  }

  /** On a host whose separator is not '/', an entry point never holds a backslash. */
  lemma EntryPointHasNoBackslash(sep: char, manifests: map<string, string>, start: string)
    requires sep != '/'
    ensures EntryPoint(sep, manifests, start).Some? ==> '\\' !in EntryPoint(sep, manifests, start).value
  {
  }

  /** A manifest directly at `start` decides the answer, whatever lies above it. */
  lemma EntryPointAtStart(sep: char, manifests: map<string, string>, start: string)
    requires start in manifests
    ensures EntryPoint(sep, manifests, start).Some? <==> manifests[start] != ""
    ensures manifests[start] != "" ==>
              EntryPoint(sep, manifests, start) == Some(FormatPath(sep, Str(Resolve(sep, start, manifests[start]))).s)
  {
  }

  // ----- The host: filesystem, registry and package manager -----

  /** One npminstall call. */
  datatype InstallRequest = InstallRequest(root: string, storeDir: string, registry: string, name: string, version: string)

  /** Where npminstall puts name@version: its store (root/node_modules when none is given), by cache key. */
  function InstalledDir(sep: char, req: InstallRequest): string {
    CachePath(sep, if req.storeDir != "" then req.storeDir else Join(sep, req.root, "node_modules"),
              req.name, req.version)
  }

  /**
   * The machine the resolver runs on. The filesystem is a set of existing paths plus the
   * manifests (directory -> its `main`, "" when absent); the registry and the package
   * manager are fixed oracles; every npminstall call is recorded in `requests`.
   */
  class Host {
    const sep: char
    const latest: string -> string                 // getNpmLatestVersion(name)
    const publishedMain: (string, string) -> string  // `main` of name@version's manifest
    const installFails: InstallRequest -> bool     // npminstall rejects this request
    var paths: set<string>
    var manifests: map<string, string>
    var requests: seq<InstallRequest>

    constructor(sep: char, latest: string -> string, publishedMain: (string, string) -> string,
                installFails: InstallRequest -> bool, paths: set<string>, manifests: map<string, string>)
      ensures this.sep == sep && this.latest == latest && this.publishedMain == publishedMain
      ensures this.installFails == installFails
      ensures this.paths == paths && this.manifests == manifests && requests == []
    {
      this.sep := sep;
      this.latest := latest;
      this.publishedMain := publishedMain;
      this.installFails := installFails;
      this.paths := paths;
      this.manifests := manifests;
      requests := [];
    }

    /** What npminstall reports for `req`. */
    function InstallOutcome(req: InstallRequest): (o: Outcome)
      ensures o.Ok? <==> !installFails(req)
    {
      if installFails(req) then Fail(InstallFailed(req.name, req.version)) else Ok
    }

    /** The state after npminstall(req), from the given earlier state. */
    ghost predicate AfterInstall(paths0: set<string>, manifests0: map<string, string>,
                                 requests0: seq<InstallRequest>, req: InstallRequest)
      reads this
    {
      && requests == requests0 + [req]
      && (installFails(req) ==> paths == paths0 && manifests == manifests0)
      && (!installFails(req) ==>
            && paths == paths0 + {InstalledDir(sep, req)}
            && manifests == manifests0[InstalledDir(sep, req) := publishedMain(req.name, req.version)])
    }

    /** fs-extra mkdirpSync. */
    method MkdirP(p: string)
      modifies this`paths
      ensures paths == old(paths) + {p}
    {
      paths := paths + {p};
    }

    /** npminstall: recorded; when it succeeds the package's directory and manifest appear. */
    method NpmInstall(req: InstallRequest) returns (o: Outcome)
      modifies this`paths, this`manifests, this`requests
      ensures AfterInstall(old(paths), old(manifests), old(requests), req)
      ensures o == InstallOutcome(req)
    {
      requests := requests + [req];
      o := InstallOutcome(req);
      if o.Ok? {
        var dir := InstalledDir(sep, req);
        paths := paths + {dir};
        manifests := manifests[dir := publishedMain(req.name, req.version)];
      }
    }
  }

  // ----- Construction -----

  /** The argument of `new Package(options)`: empty, not an object, or an object's fields. */
  datatype Options =
    | Falsy
    | NotAnObject
    | Record(targetPath: string, storeDir: string, packageName: Option<string>, packageVersion: string)

  datatype Config = Config(targetPath: string, storeDir: string, packageName: string, packageVersion: string)

  /**
   * The constructor's checks: empty options and non-objects are configuration errors, and a
   * missing package name fails when the cache prefix is computed from it.
   */
  function CheckOptions(o: Options): (r: Result<Config>)
    ensures o.Falsy? ==> r.Failure? && r.error.ConfigError?
    ensures o.NotAnObject? ==> r.Failure? && r.error.ConfigError?
    ensures o.Record? && o.packageName.None? ==> r.Failure? && r.error.TypeError?
    ensures r.Success? <==> o.Record? && o.packageName.Some?
    ensures r.Success? ==> r.value == Config(o.targetPath, o.storeDir, o.packageName.value, o.packageVersion)
  {
    match o
    case Falsy => Failure(ConfigError("Package options must not be empty"))
    case NotAnObject => Failure(ConfigError("Package options must be an object"))
    case Record(t, s, n, v) =>
      if n.None? then Failure(TypeError("Cannot read properties of undefined (reading 'replace')"))
      else Success(Config(t, s, n.value, v))
  }

  /** `new Package(options)`: the checked options become the package's fields. */
  method NewPackage(host: Host, o: Options) returns (r: Result<Package>)
    ensures r.Failure? <==> CheckOptions(o).Failure?
    ensures r.Failure? ==> r.error == CheckOptions(o).error
    ensures r.Success? ==> (fresh(r.value) && r.value.host == host
                            && r.value.Fields() == CheckOptions(o).value)
  {
    match CheckOptions(o)
    case Failure(e) => r := Failure(e);
    case Success(c) =>
      var p := new Package(host, c);
      r := Success(p);
  }

  // ----- The resolver -----

  class Package {
    const host: Host
    const targetPath: string
    const storeDir: string       // "" when no shared store is configured
    const packageName: string
    var packageVersion: string

    constructor(host: Host, c: Config)
      ensures this.host == host && Fields() == c
    {
      this.host := host;
      targetPath := c.targetPath;
      storeDir := c.storeDir;
      packageName := c.packageName;
      packageVersion := c.packageVersion;
    }

    function Fields(): Config
      reads this
    {
      Config(targetPath, storeDir, packageName, packageVersion)
    }

    /** Store mode (a shared, version-keyed cache) rather than direct-path mode. */
    predicate StoreMode() {
      storeDir != ""
    }

    /**
     * getSpecificCacheFilePath: the cache directory of `version` of this package. Only in
     * store mode: without a store, path.resolve(undefined, ...) throws.
     */
    function SpecificCacheFilePath(version: string): (p: string)
      requires StoreMode()
      ensures p == CachePath(host.sep, storeDir, packageName, version)
    {
      CachePath(host.sep, storeDir, packageName, version)
    }

    /** Distinct versions of one package have distinct cache directories. */
    lemma SpecificCacheFilePathInjective(v1: string, v2: string)
      requires StoreMode()
      ensures SpecificCacheFilePath(v1) == SpecificCacheFilePath(v2) <==> v1 == v2
    {
      if SpecificCacheFilePath(v1) == SpecificCacheFilePath(v2) {
        CachePathInjectiveInVersion(host.sep, storeDir, packageName, v1, v2);
      }
    }

    /** The cacheFilePath getter: the cache directory of the current version. */
    function CacheFilePath(): (p: string)
      requires StoreMode()
      reads this
      ensures p == SpecificCacheFilePath(packageVersion)
    {
      SpecificCacheFilePath(packageVersion)
    }

    /** The npminstall request for `version` of this package. */
    function Request(version: string): (r: InstallRequest)
      ensures r.root == targetPath && r.storeDir == storeDir
      ensures r.registry == NpmInfo.DefaultRegistry(false) == NpmInfo.MirrorRegistry
      ensures r.name == packageName && r.version == version
    {
      InstallRequest(targetPath, storeDir, NpmInfo.DefaultRegistry(false), packageName, version)
    }

    /** prepare: create the store directory when one is set, and resolve the sentinel version. */
    method Prepare()
      modifies this`packageVersion, host`paths
      ensures packageVersion == ResolvedVersion(old(packageVersion), packageName, host.latest)
      ensures host.paths == PreparedPaths(old(host.paths), storeDir)
    {
      if storeDir != "" && storeDir !in host.paths {
        host.MkdirP(storeDir);
      }
      if packageVersion == Latest {
        packageVersion := host.latest(packageName);
      }
    }

    /**
     * exists: in store mode, prepare and then ask whether this version's cache directory
     * exists; in direct mode, ask only whether the target path exists.
     */
    method Exists() returns (b: bool)
      modifies this`packageVersion, host`paths
      ensures StoreMode() ==>
                && packageVersion == ResolvedVersion(old(packageVersion), packageName, host.latest)
                && host.paths == PreparedPaths(old(host.paths), storeDir)
                && b == (CacheFilePath() in host.paths)
      ensures !StoreMode() ==>
                && packageVersion == old(packageVersion) && host.paths == old(host.paths)
                && b == (targetPath in host.paths)
    {
      if storeDir != "" {
        Prepare();
        b := CacheFilePath() in host.paths;
      } else {
        b := targetPath in host.paths;
      }
    }

    /** install: prepare, then one npminstall request for the (resolved) version. */
    method Install() returns (o: Outcome)
      modifies this`packageVersion, host`paths, host`manifests, host`requests
      ensures packageVersion == ResolvedVersion(old(packageVersion), packageName, host.latest)
      ensures host.AfterInstall(PreparedPaths(old(host.paths), storeDir), old(host.manifests),
                                old(host.requests), Request(packageVersion))
      ensures o == host.InstallOutcome(Request(packageVersion))
    {
      Prepare();
      o := host.NpmInstall(Request(packageVersion));
    }

    /**
     * update as written: without a store, getSpecificCacheFilePath throws a TypeError before
     * any install. With one, when the latest version is not cached it is installed, and then
     * the assignment of the undeclared `packageVersion` throws a ReferenceError.
     */
    method UpdateAsWritten() returns (o: Outcome)
      modifies this`packageVersion, host`paths, host`manifests, host`requests
      ensures packageVersion == ResolvedVersion(old(packageVersion), packageName, host.latest)
      ensures !StoreMode() ==>
                o.Fail? && o.error.TypeError?
                && host.paths == old(host.paths) && host.manifests == old(host.manifests)
                && host.requests == old(host.requests)
      ensures StoreMode() && SpecificCacheFilePath(host.latest(packageName)) in PreparedPaths(old(host.paths), storeDir) ==>
                o == Ok && host.paths == PreparedPaths(old(host.paths), storeDir)
                && host.manifests == old(host.manifests) && host.requests == old(host.requests)
      ensures StoreMode() && SpecificCacheFilePath(host.latest(packageName)) !in PreparedPaths(old(host.paths), storeDir) ==>
                host.AfterInstall(PreparedPaths(old(host.paths), storeDir), old(host.manifests),
                                  old(host.requests), Request(host.latest(packageName)))
                && o == if host.InstallOutcome(Request(host.latest(packageName))).Fail?
                        then host.InstallOutcome(Request(host.latest(packageName)))
                        else Fail(ReferenceError("packageVersion"))
    {
      Prepare();
      var latestPackageVersion := host.latest(packageName);
      if storeDir == "" {
        return Fail(TypeError("The \"paths[0]\" argument must be of type string. Received undefined"));
      }
      var latestFilePath := SpecificCacheFilePath(latestPackageVersion);
      o := Ok;
      if latestFilePath !in host.paths {
        o := host.NpmInstall(Request(latestPackageVersion));
        if o.Ok? {
          o := Fail(ReferenceError("packageVersion"));
        }
      }
    }

    /**
     * update, corrected: as above, but a successful install of the latest version makes it
     * this package's version. The TypeError without a store is kept.
     */
    method Update() returns (o: Outcome)
      modifies this`packageVersion, host`paths, host`manifests, host`requests
      ensures !StoreMode() ==>
                o.Fail? && o.error.TypeError?
                && packageVersion == ResolvedVersion(old(packageVersion), packageName, host.latest)
                && host.paths == old(host.paths) && host.manifests == old(host.manifests)
                && host.requests == old(host.requests)
      ensures StoreMode() && SpecificCacheFilePath(host.latest(packageName)) in PreparedPaths(old(host.paths), storeDir) ==>
                o == Ok && packageVersion == ResolvedVersion(old(packageVersion), packageName, host.latest)
                && host.paths == PreparedPaths(old(host.paths), storeDir)
                && host.manifests == old(host.manifests) && host.requests == old(host.requests)
      ensures StoreMode() && SpecificCacheFilePath(host.latest(packageName)) !in PreparedPaths(old(host.paths), storeDir) ==>
                host.AfterInstall(PreparedPaths(old(host.paths), storeDir), old(host.manifests),
                                  old(host.requests), Request(host.latest(packageName)))
                && o == host.InstallOutcome(Request(host.latest(packageName)))
                && packageVersion == if o.Ok? then host.latest(packageName)
                                     else ResolvedVersion(old(packageVersion), packageName, host.latest)
    {
      Prepare();
      var latestPackageVersion := host.latest(packageName);
      if storeDir == "" {
        return Fail(TypeError("The \"paths[0]\" argument must be of type string. Received undefined"));
      }
      var latestFilePath := SpecificCacheFilePath(latestPackageVersion);
      o := Ok;
      if latestFilePath !in host.paths {
        o := host.NpmInstall(Request(latestPackageVersion));
        if o.Ok? {
          packageVersion := latestPackageVersion;
        }
      }
    }

    /** getRootFilePath: search from the cache directory in store mode, from the target path otherwise. */
    function RootFilePath(): (r: Option<string>)
      reads this, host
      ensures StoreMode() ==> r == EntryPoint(host.sep, host.manifests, CacheFilePath())
      ensures !StoreMode() ==> r == EntryPoint(host.sep, host.manifests, targetPath)
    {
      EntryPoint(host.sep, host.manifests, if storeDir != "" then CacheFilePath() else targetPath)
    }
  }

  /** In store mode, a successful install makes the very next existence check succeed. */
  method InstallThenExists(pkg: Package) returns (o: Outcome, b: bool)
    modifies pkg, pkg.host
    ensures pkg.StoreMode() && o.Ok? ==> b
  {
    o := pkg.Install();
    b := pkg.Exists();
  }

  /**
   * A package at version 1.0.0 whose registry's latest 1.1.0 is not cached: update as
   * written issues the install and then fails with the ReferenceError.
   */
  method UpdateThrowsAfterInstall() returns (o: Outcome, installs: nat)
    ensures o == Fail(ReferenceError("packageVersion"))
    ensures installs == 1
  {
    var host := new Host('/', n => "1.1.0", (n, v) => "lib/index.js", req => false, {}, map[]);
    var pkg := new Package(host, Config("/t", "/s", "@axton-cli/init", "1.0.0"));
    assert |pkg.SpecificCacheFilePath("1.1.0")| > |"/s"|;
    o := pkg.UpdateAsWritten();
    installs := |host.requests|;
  }

  /** The same situation with the corrected update: the install succeeds and the version advances. */
  method UpdateAdvancesVersion() returns (o: Outcome, version: string)
    ensures o == Ok && version == "1.1.0"
  {
    var host := new Host('/', n => "1.1.0", (n, v) => "lib/index.js", req => false, {}, map[]);
    var pkg := new Package(host, Config("/t", "/s", "@axton-cli/init", "1.0.0"));
    assert |pkg.SpecificCacheFilePath("1.1.0")| > |"/s"|;
    o := pkg.Update();
    version := pkg.packageVersion;
  }

  /**
   * A package built without a store, as the target-path override builds it: update throws
   * the TypeError of path.resolve(undefined, ...) and issues no install.
   */
  method UpdateWithoutStoreThrows() returns (o: Outcome, installs: nat)
    ensures o.Fail? && o.error.TypeError?
    ensures installs == 0
  {
    var host := new Host('/', n => "1.1.0", (n, v) => "lib/index.js", req => false, {}, map[]);
    var pkg := new Package(host, Config("/t", "", "@axton-cli/init", "1.0.0"));
    o := pkg.UpdateAsWritten();
    installs := |host.requests|;
  }
}
