# Command-package resolution for a scaffolding CLI

This project models the command-package resolution layer of a Node.js command-line tool. Each
subcommand is implemented by an installable npm package. When a command runs, the tool:

1. looks the command up in a static table to get its package name;
2. makes the package present, installing or updating it from the registry into a shared,
   version-keyed cache store, or using it as it is at an override target path;
3. finds the entry point the package's manifest declares;
4. calls that entry point with the command's arguments.

The model covers four pieces:

- **Registry client** (`NpmInfo`, with `Semver` for the version order it uses). This covers the
  metadata lookup, the version list, the filter and newest-first sort of versions above a base,
  and the default registry.
- **Path formatter** (`PathFormatter`). It rewrites backslashes to slashes when the host's
  separator is not `/`.
- **Package resolver** (`Packages`).
  - `Package` is a class. Its version field is updated in place by `Prepare` and `Update`.
  - It runs against a `Host` object, which holds:
    - the filesystem, as a set of existing paths plus a map from manifest directories to
      their `main` field;
    - the registry's "latest version" answer, as a fixed function;
    - the package manager: an oracle says whether each install fails, and every install
      request is recorded in `requests`.
  - `Paths` stands in for `path.resolve` and for the upward manifest search of `pkg-dir`.
- **Command executor** (`Exec`). It picks the mode and dispatches `exists` to `update` or
  `install`. It calls the entry point only when one was found. The dynamic `require` and the
  call become an `Invoked` result, and `entryFails` says which error message, if any, the
  entry point raises.

JavaScript `undefined`, and other falsy strings, are written `""` for: the store directory, the
target-path override, the registry argument and a manifest's `main`. A package name that is
absent (an unknown command) is `None`.

Three behaviours of the code are worth stating up front:

- `getNpmInfo` passes every rejection of the HTTP client on (utils/get-npm-info/lib/index.js:18-20).
  The client rejects a transport failure and, by its default status check, any status
  outside 200-299. So an unreachable registry or an unpublished name (404) is a rejection,
  not `null`. `getNpmInfo` gives `null` for an empty name (utils/get-npm-info/lib/index.js:8-9)
  and for a 2xx answer other than 200. A 200 answer gives its body, and a falsy body is
  written as no metadata (`Option<Metadata>` in npm_info.dfy); `getNpmVersions`'s `if (data)`
  at line 29 treats that like `null`.
- `exists` calls `prepare` only in store mode. In direct mode it only tests the target path
  (models/package/lib/index.js:48-53).
- `update` throws a `ReferenceError` after a successful install (see Findings).

## Model

| member | source | states |
|---|---|---|
| PathFormatter.ToSlashes | utils/format-path/lib/index.js:13 | every backslash becomes `/`, every other character stays at its position, the length is kept, and no backslash is left |
| PathFormatter.FormatPath | utils/format-path/lib/index.js:7-17 | a non-string is returned unchanged; on a `/` host the input comes back identical; otherwise a string comes back with the same length, the same non-backslash characters and no backslash |
| PathFormatter.FormatPathIdempotent | utils/format-path/lib/index.js:7-17 | formatting twice equals formatting once |
| Semver.Parse | utils/get-npm-info/lib/index.js:38 | a string that is read as a version is exactly that version's canonical spelling, after an optional leading `v`; with `ParseShow`, reading and printing are inverse |
| Semver.Newer | utils/get-npm-info/lib/index.js:38 | `semver.satisfies(v, ">" + base)`: only two versions can satisfy it, and for two versions it holds exactly when the base does not rank at least as high as `v` |
| Semver.RanksAtLeast | utils/get-npm-info/lib/index.js:39 | the sort's order: for two versions, `a` ranks at least as high as `b` exactly when `b` is not greater; a version outranks every non-version |
| Semver.RanksAtLeastIsTotalPreorder | utils/get-npm-info/lib/index.js:39 | the sort's order is reflexive, total and transitive |
| Semver.ParseShow | utils/get-npm-info/lib/index.js:38 | the version reader reads back every printed `MAJOR.MINOR.PATCH` triple: the spelling and the reading are inverse |
| Semver.GreaterIsStrictTotalOrder | utils/get-npm-info/lib/index.js:39 | version precedence is irreflexive, asymmetric, transitive and total on distinct triples |
| NpmInfo.DefaultRegistry | utils/get-npm-info/lib/index.js:23-25 | the official registry exactly when `isOriginal` is true, the mirror exactly when it is false |
| NpmInfo.NpmInfoUrl | utils/get-npm-info/lib/index.js:11-12 | the metadata URL is the given registry, or the mirror when none is given, followed by the name |
| NpmInfo.GetNpmInfo | utils/get-npm-info/lib/index.js:7-21 | an empty name gives null; a transport failure and a status outside 2xx become rejections; a 200 answer gives its body; another 2xx answer gives null; and null comes back exactly for an empty name, a non-200 2xx answer or an empty body |
| NpmInfo.EmptyNameMakesNoRequest | utils/get-npm-info/lib/index.js:8-10 | for an empty name, the answer does not depend on the network at all |
| NpmInfo.GetNpmVersions | utils/get-npm-info/lib/index.js:27-34 | a rejection propagates; null metadata gives `[]`; otherwise the result is exactly the keys of `versions`, and a TypeError when that object is missing |
| NpmInfo.FilterNewer | utils/get-npm-info/lib/index.js:38 | keeps each element strictly newer than the base, with its multiplicity, and drops every other element (malformed ones included) |
| NpmInfo.Insert | utils/get-npm-info/lib/index.js:39 | inserting into a newest-first sequence keeps it newest-first and adds exactly one element |
| NpmInfo.SortNewestFirst | utils/get-npm-info/lib/index.js:39 | the result is sorted newest first and is a permutation of the input |
| NpmInfo.GetSemverVersions | utils/get-npm-info/lib/index.js:36-40 | every element is strictly newer than the base; the multiset of the result is that of the newer inputs; the result is sorted newest first; an empty input gives an empty output |
| NpmInfo.GetSemverVersionsMembers | utils/get-npm-info/lib/index.js:37-39 | a string is in the result if and only if it is an input newer than the base |
| NpmInfo.NewestOf | utils/get-npm-info/lib/index.js:45-47 | the head of a newest-first list is absent exactly for the empty list, and otherwise ranks at least as high as every element |
| NpmInfo.GetNpmSemverVersion | utils/get-npm-info/lib/index.js:42-49 | a lookup failure propagates. Otherwise the result is the maximum of the published versions newer than the base. It is null exactly when none is newer, which includes a package with no versions |
| Paths.PkgDir | models/package/lib/index.js:91 | the result is the nearest ancestor of the start path, the start itself included, that holds a manifest; none exactly when no ancestor holds one |
| Packages.ReplaceFirst | models/package/lib/index.js:24 | only the first `/` of the name becomes `_`; the length is kept |
| Packages.CacheKey | models/package/lib/index.js:37-44 | the key of name@version starts with `_` and is twice the name plus the version plus three characters long |
| Packages.CacheKeyLayout | models/package/lib/index.js:37-44 | the key is the name with its first `/` as `_`, then `@`, the version, `@` and the name |
| Packages.CachePath | models/package/lib/index.js:38-44 | the cache directory is the store, one separator, then the cache key |
| Packages.Package.SpecificCacheFilePath | models/package/lib/index.js:42-44 | in store mode, the cache directory of name@version under this package's store |
| Packages.Package.SpecificCacheFilePathInjective | models/package/lib/index.js:42-44 | two versions of one package share a cache directory exactly when they are the same version |
| Packages.Package.CacheFilePath | models/package/lib/index.js:38-40 | in store mode, the getter equals `SpecificCacheFilePath` of the current version |
| Packages.CachePathInjectiveInVersion | models/package/lib/index.js:38-44 | for one store and one package, distinct versions have distinct cache paths |
| Packages.CachePathInjective | models/package/lib/index.js:38-44 | for one store, (name, version) pairs whose versions contain no `@` never collide |
| Semver.ParsedHasNoAt | utils/get-npm-info/lib/index.js:38 | no string that parses as a version contains `@`, so `CachePathInjective` covers every string `Parse` accepts |
| Packages.ResolvedVersion | models/package/lib/index.js:32-34 | only the `latest` sentinel is replaced, by the registry's latest; any other version is kept |
| Packages.ResolvedVersionIdempotent | models/package/lib/index.js:27-35 | a second prepare leaves the version alone, and the result is never the sentinel, provided the registry answers with a real version |
| Packages.PreparedPaths | models/package/lib/index.js:29-31 | after prepare, the store directory exists when one is set, and no other path is added |
| Packages.PreparedPathsIdempotent | models/package/lib/index.js:29-31 | a second prepare creates nothing new |
| Packages.EntryPoint | models/package/lib/index.js:90-99 | null unless the nearest manifest directory has a `main`; otherwise that `main` resolved against the directory and formatted |
| Packages.EntryPointHasNoBackslash | models/package/lib/index.js:95 | on a host whose separator is not `/`, a found entry point holds no backslash |
| Packages.EntryPointAtStart | models/package/lib/index.js:90-99 | a manifest at the start path decides the result, whatever lies above it |
| Packages.Host.MkdirP | models/package/lib/index.js:30 | the path now exists and no other path changes |
| Packages.Package.Request | models/package/lib/index.js:59-67 | the npminstall request carries the target path as root, the store, the mirror registry, the name and the given version |
| Packages.Host.NpmInstall | models/package/lib/index.js:59-67 | records the request; on success, adds the package's cache directory and its manifest; on failure, changes nothing else |
| Packages.CheckOptions | models/package/lib/index.js:13-25 | empty options and non-objects are configuration errors; a missing name is a TypeError; otherwise the fields are taken as given |
| Packages.NewPackage | models/package/lib/index.js:13-25 | construction fails exactly when the checks fail, with their error; otherwise it gives a fresh package holding the given fields |
| Packages.Package.Prepare | models/package/lib/index.js:27-35 | the version becomes its resolved form; the paths become the prepared paths |
| Packages.Package.Exists | models/package/lib/index.js:47-54 | in store mode, prepare, then report whether the cache path of the resolved version exists; in direct mode, report only whether the target path exists, with the version and the filesystem untouched |
| Packages.Package.Install | models/package/lib/index.js:56-68 | prepare, then exactly one request: the target path as root, the store, the mirror registry, the name and the resolved version |
| Packages.Package.UpdateAsWritten | models/package/lib/index.js:70-86 | without a store: a TypeError and no request, after prepare. With one, when the latest version's cache path exists: no request, and the version is unchanged. Otherwise one request for the latest version; it propagates an install failure, and after a successful install it fails with a ReferenceError. The version is never advanced |
| Packages.Package.Update | models/package/lib/index.js:70-86 | as `UpdateAsWritten` (the TypeError without a store included), except that a successful install makes the latest version the package's version and returns normally |
| Packages.Package.RootFilePath | models/package/lib/index.js:89-106 | the search starts at the cache path in store mode and at the target path otherwise |
| Packages.InstallThenExists | models/package/lib/index.js:47-68 | in store mode, after a successful install, `exists` reports true |
| Packages.UpdateWithoutStoreThrows | models/package/lib/index.js:70-73 | a concrete package without a store for which update throws the TypeError and installs nothing |
| Packages.UpdateThrowsAfterInstall | models/package/lib/index.js:74-85 | a concrete package and registry for which the as-written update installs once and then throws the ReferenceError |
| Packages.UpdateAdvancesVersion | models/package/lib/index.js:74-85 | for the same inputs, the corrected update succeeds and the version becomes the latest |
| Exec.Settings | core/exec/lib/index.js:7-9 | `init` maps to `@axton-cli/init`; no other command has a package |
| Exec.CommandName | core/exec/lib/index.js:21-22 | the command name is the `name()` of the last argument, when that argument is the command object |
| Exec.Dispatch | core/exec/lib/index.js:51-59 | the entry point is called only when one was found, with all the original arguments; an error it raises is logged and not rethrown |
| Exec.StoreTarget | core/exec/lib/index.js:27 | the shared-cache target path starts with the CLI home and a separator, and has room for exactly `dependencies` after them |
| Exec.StoreDir | core/exec/lib/index.js:28 | the store starts with the target path and a separator, has room for exactly `node_modules` after them, and is never empty |
| Exec.StoreLayout | core/exec/lib/index.js:27-28 | the target path ends in `dependencies` after the home and a separator; the store ends in `node_modules` after the target and a separator |
| Exec.RunFromStore | core/exec/lib/index.js:26-43 | the shared-cache branch, with the store-mode outcomes listed below |
| Exec.RunInPlace | core/exec/lib/index.js:44-51 | the override branch: no install, and the entry-point search starts at the target path |
| Exec.Exec | core/exec/lib/index.js:13-60 | see below |

`Exec.Exec` states the following.

- A missing command object fails with a TypeError and changes nothing. So does an unknown
  command, whose package construction fails.
- With an override target path, nothing is installed or created, and the search starts at
  that path.
- Otherwise the target is `home/dependencies` and the store is `target/node_modules`. Then:
  - if the cache path of the registry's latest version exists, no install is issued;
  - if it does not, exactly one install is issued for that version, and an install failure
    propagates;
  - after a successful install, the entry point runs if and only if the package declares a
    `main`.

## Findings

| source | as written | input that shows it | evidently intended | confidence | as-written member | corrected member |
|---|---|---|---|---|---|---|
| models/package/lib/index.js:84 | after installing the latest version, `update` assigns the undeclared identifier `packageVersion`, which throws a ReferenceError. The install is done but the call fails | a package `@axton-cli/init` at `1.0.0` with store `/s`, a registry whose latest is `1.1.0`, no cached `1.1.0`, and an install that succeeds | `this.packageVersion = latestPackageVersion`, returning normally | high; not executed | Packages.Package.UpdateAsWritten (witness Packages.UpdateThrowsAfterInstall) | Packages.Package.Update (witness Packages.UpdateAdvancesVersion) |

`Exec.Exec` calls the as-written `UpdateAsWritten`, as core/exec/lib/index.js:39 calls the
program's own `update`. Its contract (through `Exec.RunFromStore`) proves that the
`ReferenceError` cannot arise inside `exec`: in store mode the result is either a dispatch,
or `InstallFailed` when the one install fails, and never a `ReferenceError`. The reason is
that `exists` has already resolved `latest` against the same fixed registry answer, so it
reports true only when the latest version is cached, and `update` then issues no install.

## Left out

- Real I/O. The network is replaced by parameters:
  - the `fetch` function for `getNpmInfo`;
  - the registry's latest version, `Host.latest`;
  - the manifest `main` that each installed version declares, `Host.publishedMain`;
  - npminstall's success or failure, `Host.installFails`;
  - the error an entry point raises, `entryFails`.
- Package installation internals. The model assumes npminstall puts `name@version` at
  `<store>/_<name with first '/' as '_'>@<version>@<name>`, the layout named in the comment at
  models/package/lib/index.js:37, with `<root>/node_modules` as the store when none is given.
  The `node_modules` link and the parent directories made by `mkdirp` are not modelled.
- Path semantics. `path.resolve` is concatenation with the host separator. These are not
  modelled: `.` and `..` segments, drive letters, resolution against the working directory,
  and the root directory.
- Manifest lookup. `pkg-dir` searches upward for a `package.json`. The model replaces the
  `require` of that file with a lookup in the manifest map.
- getNpmLatestVersion. It is imported at models/package/lib/index.js:9 but is neither defined
  nor exported by utils/get-npm-info/lib/index.js. It is kept as an oracle. That oracle cannot
  fail and cannot return null, and its answer does not change during a run.
- getDefaultRegistry exports. It is defined but missing from the module's exports
  (utils/get-npm-info/lib/index.js:51-56), so the destructured import in the package model is
  `undefined`. The model assumes the defined function is the one imported.
- Semver.Parse: accepts only an optional `v` followed by three numeric identifiers without
  leading zeros. Strings with prerelease tags, build metadata or surrounding whitespace, like
  every malformed one, count as "not newer"; loose mode is not modelled. The numbers are
  unbounded: a triple with a number above 2^53-1 is a version here and can count as newer,
  although node-semver rejects it ("Invalid major version") and `satisfies` is then false.
  Every triple longer than node-semver's 256-character cap has such a number. A base that is
  not a full version, such as the partial range `>1.2`, yields nothing, whereas node-semver
  accepts some of these.
- NpmInfo.GetSemverVersions: does not fix the relative order of versions of equal rank (such as
  `1.0.0` and `v1.0.0`). The source's comparator never returns 0, so the engine's sort decides
  that order. The model's insertion sort is one admissible order: newest first, and a
  permutation of the input.
- Exec.StoreTarget: the contract gives the prefix, the separator and the length; the
  `dependencies` suffix is stated apart, by `Exec.StoreLayout`, because as a postcondition it
  makes every caller's proof too costly.
- Exec.StoreDir: likewise; its `node_modules` suffix is stated by `Exec.StoreLayout`.
- Packages.Package.SpecificCacheFilePath: requires store mode. Without a store the source's
  `path.resolve(undefined, …)` at models/package/lib/index.js:43 throws a TypeError; the
  function cannot throw, so the callers that reach that case model the error instead.
- Packages.Package.CacheFilePath: requires store mode, for the same `path.resolve(undefined, …)`
  TypeError at models/package/lib/index.js:39. Its callers reach it only in store mode.
- Packages.Package.UpdateAsWritten: in direct mode the source throws a TypeError from
  `path.resolve(undefined, …)` at line 73; the model returns that TypeError after `prepare`,
  before any request. A store given as an explicit empty string, which `path.resolve` would
  accept, is not told apart from an absent one.
- Packages.Package.Update: the same direct-mode TypeError, kept in the corrected form.
- Object.keys order. The keys of `versions` are taken in the order the body lists them.
- Request details. url-join's slash normalisation is not modelled. `fetch` yields the final
  response after the client has followed any redirects.
- Other JavaScript values. A non-string name, version or path is not modelled, beyond "absent".
- Unset CLI_HOME_PATH. `path.resolve(undefined, …)` would throw. The home path is assumed to
  be set, as the CLI shell always sets it.
- Promise scheduling. Every call is awaited in sequence, so the methods are sequential.
- Logging. `log.verbose` is left out. `log.error` of an entry point's error becomes the
  `logged` field of the result.
- commands/init/lib/index.js is not part of this model: it is interactive prompts, template
  download and rendering.
- core/cli/lib/index.js is not part of this model: it is CLI wiring and environment checks.
  Its update check at line 116 relies only on `NpmInfo.GetNpmSemverVersion`'s contract.
