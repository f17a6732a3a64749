/**
 * The registry client: metadata lookup by package name, the version list, and the
 * newest version above a base version.
 */
module NpmInfo {
  import opened Common
  import opened Semver

  const OfficialRegistry: string := "https://registry.npmjs.org"
  const MirrorRegistry: string := "https://registry.npm.taobao.org"

  /** The registry used when the caller names none: the mirror, or upstream on request. */
  function DefaultRegistry(isOriginal: bool): (url: string)
    ensures isOriginal <==> url == OfficialRegistry
    ensures !isOriginal <==> url == MirrorRegistry
  {
    if isOriginal then OfficialRegistry else MirrorRegistry
  }

  /**
   * The parsed body of a metadata response. `versions` holds the keys of the body's
   * `versions` object, or None when the body has no such object.
   */
  datatype Metadata = Metadata(versions: Option<seq<string>>)

  /**
   * The final response to one GET, redirects already followed (body None when it is falsy),
   * or a transport failure.
   */
  datatype Response = Reply(status: int, body: Option<Metadata>) | Unreachable(reason: string)

  /** The HTTP client's default acceptance test: a status in 200-299 resolves, any other rejects. */
  predicate ValidStatus(status: int) {
    200 <= status < 300
  }

  /** The URL fetched for `name`: the given registry ("" when none) or the mirror, then the name. */
  function NpmInfoUrl(name: string, registry: string): (url: string)
    ensures registry != "" ==> url == registry + "/" + name
    ensures registry == "" ==> url == MirrorRegistry + "/" + name
  {
    (if registry != "" then registry else DefaultRegistry(false)) + "/" + name
  }

  /**
   * getNpmInfo: `fetch` stands for the network. An empty name yields null without a
   * request. The client rejects a transport failure and any status outside 2xx, and the
   * rejection is passed on. A 200 answer yields its body; another 2xx answer yields null.
   */
  function GetNpmInfo(name: string, registry: string, fetch: string -> Response): (r: Result<Option<Metadata>>)
    ensures name == "" ==> r == Success(None)
    ensures name != "" && fetch(NpmInfoUrl(name, registry)).Unreachable? ==>
              r == Failure(TransportError(fetch(NpmInfoUrl(name, registry)).reason))
    ensures name != "" && fetch(NpmInfoUrl(name, registry)).Reply? ==>
              var status := fetch(NpmInfoUrl(name, registry)).status;
              && (!ValidStatus(status) ==> r == Failure(StatusError(status)))
              && (status == 200 ==> r == Success(fetch(NpmInfoUrl(name, registry)).body))
              && (ValidStatus(status) && status != 200 ==> r == Success(None))
    ensures r == Success(None) <==>
              || name == ""
              || (&& fetch(NpmInfoUrl(name, registry)).Reply?
                  && ValidStatus(fetch(NpmInfoUrl(name, registry)).status)
                  && (fetch(NpmInfoUrl(name, registry)).status != 200
                      || fetch(NpmInfoUrl(name, registry)).body.None?))
  {
    if name == "" then Success(None)
    else
      match fetch(NpmInfoUrl(name, registry))
      case Unreachable(reason) => Failure(TransportError(reason))
      case Reply(status, body) =>
        if !ValidStatus(status) then Failure(StatusError(status))
        else if status == 200 then Success(body)
        else Success(None)
  }

  /** An empty name never reaches the network: the answer is the same whatever `fetch` does. */
  lemma EmptyNameMakesNoRequest(registry: string, f: string -> Response, g: string -> Response)
    ensures GetNpmInfo("", registry, f) == GetNpmInfo("", registry, g) == Success(None)
  {
  }

  /**
   * getNpmVersions: no metadata means no versions; otherwise the keys of its `versions`
   * object (Object.keys throws a TypeError when that object is missing).
   */
  function GetNpmVersions(name: string, registry: string, fetch: string -> Response): (r: Result<seq<string>>)
    ensures GetNpmInfo(name, registry, fetch).Failure? ==> r == Failure(GetNpmInfo(name, registry, fetch).error)
    ensures GetNpmInfo(name, registry, fetch) == Success(None) ==> r == Success([])
    ensures GetNpmInfo(name, registry, fetch) == Success(Some(Metadata(None))) ==> r.Failure? && r.error.TypeError?
    ensures forall keys :: GetNpmInfo(name, registry, fetch) == Success(Some(Metadata(Some(keys)))) ==> r == Success(keys)
  {
    match GetNpmInfo(name, registry, fetch)
    case Failure(e) => Failure(e)
    case Success(None) => Success([])
    case Success(Some(Metadata(None))) => Failure(TypeError("Cannot convert undefined or null to object"))
    case Success(Some(Metadata(Some(keys)))) => Success(keys)
  }

  // ----- getSemverVersions: filter, then sort newest first -----

  /** The elements of `vs` strictly newer than `base`, in their original order. */
  function FilterNewer(base: string, vs: seq<string>): (r: seq<string>)
    ensures forall v :: v in r ==> Newer(v, base)
    ensures forall v :: multiset(r)[v] == if Newer(v, base) then multiset(vs)[v] else 0
    ensures |r| <= |vs|
  {
    if vs == [] then []
    else
      assert vs == [vs[0]] + vs[1..];
      var rest := FilterNewer(base, vs[1..]);
      if Newer(vs[0], base) then [vs[0]] + rest else rest
  }

  /** Newest first: each element ranks at least as high as every later one. */
  predicate SortedNewestFirst(s: seq<string>) {
    forall i, j :: 0 <= i < j < |s| ==> RanksAtLeast(s[i], s[j])
  }

  /** Insert `x` into a newest-first sequence, before the first element it ranks above. */
  function Insert(x: string, s: seq<string>): (r: seq<string>)
    requires SortedNewestFirst(s)
    ensures SortedNewestFirst(r)
    ensures multiset(r) == multiset(s) + multiset{x}
  {
    if s == [] then [x]
    else if RanksAtLeast(x, s[0]) then
      assert forall j :: 0 <= j < |s| ==> RanksAtLeast(x, s[j]) by {
        forall j | 0 <= j < |s| ensures RanksAtLeast(x, s[j]) {
          RanksAtLeastIsTotalPreorder(x, s[0], s[j]);
        }
      }
      [x] + s
    else
      assert s == [s[0]] + s[1..];
      var rest := Insert(x, s[1..]);
      assert forall v :: v in rest ==> RanksAtLeast(s[0], v) by {
        forall v | v in rest ensures RanksAtLeast(s[0], v) {
          assert v in multiset(rest);
          if v != x {
            assert v in s[1..];
          } else {
            RanksAtLeastIsTotalPreorder(x, s[0], s[0]);
          }
        }
      }
      var r := [s[0]] + rest;
      assert forall j :: 0 < j < |r| ==> r[j] in rest by {
        forall j | 0 < j < |r| ensures r[j] in rest {
          assert r[j] == rest[j - 1];
        }
      }
      r
  }

  /** Insertion sort, newest first (a deterministic stand-in for Array.prototype.sort). */
  function SortNewestFirst(s: seq<string>): (r: seq<string>)
    ensures SortedNewestFirst(r)
    ensures multiset(r) == multiset(s)
  {
    if s == [] then []
    else
      assert s == [s[0]] + s[1..];
      Insert(s[0], SortNewestFirst(s[1..]))
  }

  /**
   * getSemverVersions(base, vs): exactly the elements of `vs` newer than `base` (with
   * their multiplicities), newest first; strings that are not versions are dropped.
   */
  function GetSemverVersions(base: string, vs: seq<string>): (r: seq<string>)
    ensures forall v :: v in r ==> Newer(v, base)
    ensures forall v :: multiset(r)[v] == if Newer(v, base) then multiset(vs)[v] else 0
    ensures SortedNewestFirst(r)
    ensures vs == [] ==> r == []
  {
    SortNewestFirst(FilterNewer(base, vs))
  }

  /** A version in the result is one of the inputs, and every input newer than base is in it. */
  lemma GetSemverVersionsMembers(base: string, vs: seq<string>, v: string)
    ensures v in GetSemverVersions(base, vs) <==> v in vs && Newer(v, base)
  {
    var r := GetSemverVersions(base, vs);
    assert v in r <==> v in multiset(r);
    assert v in vs <==> v in multiset(vs);
  }

  /** The head of a newest-first sequence ranks at least as high as all of it. */
  function NewestOf(s: seq<string>): (r: Option<string>)
    requires SortedNewestFirst(s)
    ensures r.None? <==> s == []
    ensures r.Some? ==> r.value in s && forall w :: w in s ==> RanksAtLeast(r.value, w)
  {
    if s == [] then None
    else
      assert forall w :: w in s ==> RanksAtLeast(s[0], w) by {
        forall w | w in s ensures RanksAtLeast(s[0], w) {
          var j :| 0 <= j < |s| && s[j] == w;
          if j == 0 { RanksAtLeastIsTotalPreorder(w, w, w); }
        }
      }
      Some(s[0])
  }

  /**
   * getNpmSemverVersion: the newest published version strictly above `base`, or null when
   * there is none (no versions at all included). Lookup failures propagate.
   */
  function GetNpmSemverVersion(base: string, name: string, registry: string, fetch: string -> Response)
    : (r: Result<Option<string>>)
    ensures GetNpmVersions(name, registry, fetch).Failure? ==> r == Failure(GetNpmVersions(name, registry, fetch).error)
    ensures r.Success? ==> GetNpmVersions(name, registry, fetch).Success?
    ensures r.Success? && r.value.Some? ==>
              var vs := GetNpmVersions(name, registry, fetch).value;
              r.value.value in vs && Newer(r.value.value, base)
              && forall w :: w in vs && Newer(w, base) ==> AtLeast(Parse(r.value.value).value, Parse(w).value)
    ensures r.Success? && r.value.None? ==>
              forall w :: w in GetNpmVersions(name, registry, fetch).value ==> !Newer(w, base)
  {
    match GetNpmVersions(name, registry, fetch)
    case Failure(e) => Failure(e)
    case Success(vs) =>
      var newer := GetSemverVersions(base, vs);
      forall w | w in vs && Newer(w, base) ensures w in newer {
        GetSemverVersionsMembers(base, vs, w);
      }
      var top := NewestOf(newer);
      assert top.Some? ==> top.value in vs by {
        if top.Some? { GetSemverVersionsMembers(base, vs, top.value); }
      }
      Success(top)
  }
}
