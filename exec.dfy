/**
 * The command executor: maps a command to its package, makes the package present (shared
 * store) or uses it where it is (target-path override), then runs its entry point.
 */
module Exec {
  import opened Common
  import opened Paths
  import opened PathFormatter
  import opened Packages
  import NpmInfo

  /** The directory under the CLI home that holds installed command packages. */
  const CacheDir: string := "dependencies"

  /** The static command table. */
  function Settings(cmdName: string): (packageName: Option<string>)
    ensures packageName.Some? <==> cmdName == "init"
    ensures cmdName == "init" ==> packageName == Some("@axton-cli/init")
  {
    if cmdName == "init" then Some("@axton-cli/init") else None
  }

  /** An argument the CLI shell passes on: a plain value, or the command object (last). */
  datatype CliArg = Plain(text: string) | CommandObject(name: string)

  /** CLI_TARGET_PATH ("" when unset) and CLI_HOME_PATH, as set up by the CLI shell. */
  datatype Environment = Environment(targetPath: string, homePath: string)

  /** How a run ends once the package is in place. */
  datatype RunStatus =
    | NoEntry                                                    // no entry point: nothing runs
    | Invoked(entry: string, args: seq<CliArg>, logged: Option<string>)  // logged: the caught error

  /** The command name: `name()` of the last argument, when that is a command object. */
  function CommandName(args: seq<CliArg>): (r: Option<string>)
    ensures r.Some? <==> |args| > 0 && args[|args| - 1].CommandObject?
    ensures r.Some? ==> r.value == args[|args| - 1].name
  {
    if |args| > 0 && args[|args| - 1].CommandObject? then Some(args[|args| - 1].name) else None
  }

  /**
   * The last step: with an entry point, load and call it with all the arguments (an error
   * it raises is logged, not rethrown); without one, do nothing.
   */
  function Dispatch(entry: Option<string>, args: seq<CliArg>, entryFails: string -> Option<string>): (s: RunStatus)
    ensures s.NoEntry? <==> entry.None?
    ensures s.Invoked? ==> s.entry == entry.value && s.args == args && s.logged == entryFails(entry.value)
  {
    match entry
    case None => NoEntry
    case Some(e) => Invoked(e, args, entryFails(e))
  }

  /** The target path of the shared-cache mode: `dependencies` under the CLI home. */
  function StoreTarget(sep: char, env: Environment): (t: string)
    ensures |t| == |env.homePath| + 1 + |CacheDir|
    ensures t[..|env.homePath|] == env.homePath && t[|env.homePath|] == sep
  {
    Join(sep, env.homePath, CacheDir)
  }

  /** The store of the shared-cache mode: `node_modules` under the target path. */
  function StoreDir(sep: char, env: Environment): (s: string)
    ensures s != "" && |s| == |StoreTarget(sep, env)| + 1 + |"node_modules"|
    ensures s[..|StoreTarget(sep, env)|] == StoreTarget(sep, env) && s[|StoreTarget(sep, env)|] == sep
  {
    Join(sep, StoreTarget(sep, env), "node_modules")
  }

  /** The names that follow the prefixes: `dependencies` under the home, `node_modules` under the target. */
  lemma StoreLayout(sep: char, env: Environment)
    ensures StoreTarget(sep, env)[|env.homePath| + 1..] == CacheDir
    ensures StoreDir(sep, env)[|StoreTarget(sep, env)| + 1..] == "node_modules"
  {
  }

  /**
   * The shared-cache branch of exec: a package rooted at `home/dependencies` with store
   * `home/dependencies/node_modules`; update when `exists` says the version is cached,
   * install otherwise, then search for the entry point from the cache directory.
   */
  method RunFromStore(host: Host, env: Environment, packageName: Option<string>, args: seq<CliArg>,
                      entryFails: string -> Option<string>)
    returns (r: Result<RunStatus>)
    modifies host
    ensures packageName.None? ==> r.Failure? && r.error.TypeError? && unchanged(host)
    ensures packageName.Some? ==>
              var name := packageName.value;
              var version := host.latest(name);
              var store := StoreDir(host.sep, env);
              var cache := CachePath(host.sep, store, name, version);
              var paths1 := old(host.paths) + {store};
              var req := InstallRequest(StoreTarget(host.sep, env), store, NpmInfo.DefaultRegistry(false), name, version);
              && (cache in paths1 ==>
                    && host.paths == paths1 && host.manifests == old(host.manifests)
                    && host.requests == old(host.requests)
                    && r == Success(Dispatch(EntryPoint(host.sep, host.manifests, cache), args, entryFails)))
              && (cache !in paths1 ==>
                    && host.AfterInstall(paths1, old(host.manifests), old(host.requests), req)
                    && (host.installFails(req) ==> r == Failure(InstallFailed(name, version)))
                    && (!host.installFails(req) ==>
                          && r == Success(Dispatch(EntryPoint(host.sep, host.manifests, cache), args, entryFails))
                          && (r.value.NoEntry? <==> host.publishedMain(name, version) == "")))
  {
    var made := NewPackage(host, Record(StoreTarget(host.sep, env), StoreDir(host.sep, env), packageName, Latest));
    if made.Failure? {
      return Failure(made.error);
    }
    var pkg := made.value;
    var present := pkg.Exists();
    var o: Outcome;
    if present {
      o := pkg.UpdateAsWritten();
    } else {
      o := pkg.Install();
      if o.Ok? {
        EntryPointAtStart(host.sep, host.manifests, pkg.CacheFilePath());
      }
    }
    if o.Fail? {
      return Failure(o.error);
    }
    var rootFile := pkg.RootFilePath();
    r := Success(Dispatch(rootFile, args, entryFails));
  }

  /** The target-path override branch of exec: nothing is installed, the search starts at the target. */
  method RunInPlace(host: Host, env: Environment, packageName: Option<string>, args: seq<CliArg>,
                    entryFails: string -> Option<string>)
    returns (r: Result<RunStatus>)
    ensures packageName.None? ==> r.Failure? && r.error.TypeError?
    ensures packageName.Some? ==>
              r == Success(Dispatch(EntryPoint(host.sep, host.manifests, env.targetPath), args, entryFails))
  {
    var made := NewPackage(host, Record(env.targetPath, "", packageName, Latest));
    if made.Failure? {
      return Failure(made.error);
    }
    var pkg := made.value;
    var rootFile := pkg.RootFilePath();
    r := Success(Dispatch(rootFile, args, entryFails));
  }

  /**
   * exec. `entryFails` stands for running the loaded entry module: the message of the error
   * it throws, if any. Errors before the entry point (a missing command object, a command
   * not in the table, a failed install) propagate; the target-path override never installs;
   * the shared-cache mode installs exactly when the latest version is not cached yet.
   */
  method Exec(host: Host, env: Environment, args: seq<CliArg>, entryFails: string -> Option<string>)
    returns (r: Result<RunStatus>)
    modifies host
    ensures CommandName(args).None? ==>
              r.Failure? && r.error.TypeError? && unchanged(host)
    ensures CommandName(args).Some? && Settings(CommandName(args).value).None? ==>
              r.Failure? && r.error.TypeError? && unchanged(host)
    ensures CommandName(args).Some? && Settings(CommandName(args).value).Some? && env.targetPath != "" ==>
              && unchanged(host)
              && r == Success(Dispatch(EntryPoint(host.sep, host.manifests, env.targetPath), args, entryFails))
    ensures CommandName(args).Some? && Settings(CommandName(args).value).Some? && env.targetPath == "" ==>
              var name := Settings(CommandName(args).value).value;
              var version := host.latest(name);
              var store := StoreDir(host.sep, env);
              var cache := CachePath(host.sep, store, name, version);
              var paths1 := old(host.paths) + {store};
              var req := InstallRequest(StoreTarget(host.sep, env), store, NpmInfo.DefaultRegistry(false), name, version);
              && (cache in paths1 ==>
                    && host.paths == paths1 && host.manifests == old(host.manifests)
                    && host.requests == old(host.requests)
                    && r == Success(Dispatch(EntryPoint(host.sep, host.manifests, cache), args, entryFails)))
              && (cache !in paths1 ==>
                    && host.AfterInstall(paths1, old(host.manifests), old(host.requests), req)
                    && (host.installFails(req) ==> r == Failure(InstallFailed(name, version)))
                    && (!host.installFails(req) ==>
                          && r == Success(Dispatch(EntryPoint(host.sep, host.manifests, cache), args, entryFails))
                          && (r.value.NoEntry? <==> host.publishedMain(name, version) == "")))
  {
    var cmdName := CommandName(args);
    if cmdName.None? {
      return Failure(TypeError("cmdObj.name is not a function"));
    }
    var packageName := Settings(cmdName.value);
    if env.targetPath == "" {
      r := RunFromStore(host, env, packageName, args, entryFails);
    } else {
      r := RunInPlace(host, env, packageName, args, entryFails);
    }
  }
}
