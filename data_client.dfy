/**
 * `SourcebitDataClient`, the side of the plugin that runs inside Next.js
 * (lib/data-client.js:5-98 and the older copy, index.js:332-405): it waits
 * for the cache file, reads it, lists the page paths for
 * `getStaticPaths`, and answers a page request with the page whose path
 * matches, merged with the common props.
 *
 * The file system is not part of this model. Each check for the cache
 * file and each attempt to parse it is an outcome given as a parameter,
 * numbered from 0 for the first one; the delays between attempts are
 * not modelled.
 */
module DataClient {
  import opened Results
  import opened Text
  import opened JsValues
  import opened PathTemplate
  import opened Reducers

  /** Both copies look for the cache file once and then up to ten more times. */
  const ExistenceRetries: nat := 10

  /** The split copy re-reads a file it could not parse up to three times; the older copy does not retry. */
  function ReadRetries(ed: Edition): nat {
    match ed
    case Lib => 3
    case Legacy => 0
  }

  datatype ClientError =
    | CacheFileNotFound(retries: nat)    // the file was still missing after `retries` retries
    | CacheFileNotParsed(retries: nat)   // the file was still not valid JSON after `retries` retries
    | DataTypeError                      // a property read on `null`: the document or one of its pages

  /**
   * The outcome of a retry loop from attempt `k` on: the first attempt that
   * succeeds, or the failure of attempt `maxRetries`, with the number of
   * the attempt that ended the loop (which is the number of retries made).
   */
  function Attempts<T>(attempt: nat -> Option<T>, k: nat, maxRetries: nat): (Option<T>, nat)
    requires k <= maxRetries
    decreases maxRetries - k
  {
    if attempt(k).Some? || k == maxRetries then (attempt(k), k)
    else Attempts(attempt, k + 1, maxRetries)
  }

  /**
   * A retry loop ends at the first attempt that succeeds, and it gives up
   * only after every attempt up to `maxRetries` has failed.
   */
  lemma {:induction false} AttemptsSpec<T>(attempt: nat -> Option<T>, k: nat, maxRetries: nat)
    requires k <= maxRetries
    ensures var (r, n) := Attempts(attempt, k, maxRetries);
      k <= n <= maxRetries
      && r == attempt(n)
      && (forall j :: k <= j < n ==> attempt(j).None?)
      && (r.None? ==> n == maxRetries)
    decreases maxRetries - k
  {
    if attempt(k).None? && k < maxRetries {
      AttemptsSpec(attempt, k + 1, maxRetries);
    }
  }

  /** The loop succeeds exactly when one of the attempts `0..maxRetries` succeeds. */
  lemma AttemptsSucceed<T>(attempt: nat -> Option<T>, maxRetries: nat)
    ensures Attempts(attempt, 0, maxRetries).0.Some? <==> exists j :: 0 <= j <= maxRetries && attempt(j).Some?
  {
    AttemptsSpec(attempt, 0, maxRetries);
  }

  /**
   * `checkPathExists` and `readJson` of `getData`, which call themselves
   * again through `setTimeout` while they fail and fewer than `maxRetries`
   * retries were made, written as the loop they amount to.
   */
  method Retry<T>(attempt: nat -> Option<T>, maxRetries: nat) returns (r: Option<T>, retries: nat)
    ensures (r, retries) == Attempts(attempt, 0, maxRetries)
  {
    retries := 0;
    r := attempt(0);
    while r.None? && retries < maxRetries
      invariant retries <= maxRetries
      invariant r == attempt(retries)
      invariant Attempts(attempt, retries, maxRetries) == Attempts(attempt, 0, maxRetries)
      decreases maxRetries - retries
    {
      retries := retries + 1;
      r := attempt(retries);
    }
  }

  /** A check for the file as an attempt that yields nothing when it succeeds. */
  function Probe(fileExists: nat -> bool): nat -> Option<()> {
    (k: nat) => if fileExists(k) then Some(()) else None
  }

  /** What `getData` resolves or rejects with, given the outcomes of the checks and of the parses. */
  function GetDataOutcome(ed: Edition, fileExists: nat -> bool, parse: nat -> Option<Value>): Result<Value, ClientError> {
    var (found, n) := Attempts(Probe(fileExists), 0, ExistenceRetries);
    if found.None? then Failure(CacheFileNotFound(n))
    else
      var (content, m) := Attempts(parse, 0, ReadRetries(ed));
      if content.None? then Failure(CacheFileNotParsed(m)) else Success(content.value)
  }

  /** `getData`: wait for the cache file, then read it. */
  method GetData(ed: Edition, fileExists: nat -> bool, parse: nat -> Option<Value>) returns (r: Result<Value, ClientError>)
    ensures r == GetDataOutcome(ed, fileExists, parse)
  {
    var found, n := Retry(Probe(fileExists), ExistenceRetries);
    if found.None? {
      return Failure(CacheFileNotFound(n));
    }
    var content, m := Retry(parse, ReadRetries(ed));
    if content.None? {
      return Failure(CacheFileNotParsed(m));
    }
    return Success(content.value);
  }

  /**
   * `getData` fails only when the file is missing at all eleven checks, or
   * when every parse allowed fails; otherwise it yields the first document
   * that parsed.
   */
  lemma GetDataSpec(ed: Edition, fileExists: nat -> bool, parse: nat -> Option<Value>)
    ensures var r := GetDataOutcome(ed, fileExists, parse);
      (r.Failure? && r.error.CacheFileNotFound? <==> forall k :: 0 <= k <= ExistenceRetries ==> !fileExists(k))
      && (r.Failure? && r.error.CacheFileNotFound? ==> r.error.retries == ExistenceRetries)
      && (r.Failure? && r.error.CacheFileNotParsed? ==>
            r.error.retries == ReadRetries(ed) && forall j :: 0 <= j <= ReadRetries(ed) ==> parse(j).None?)
      && (r.Success? <==> (exists k :: 0 <= k <= ExistenceRetries && fileExists(k))
                          && (exists j :: 0 <= j <= ReadRetries(ed) && parse(j).Some?))
      && (r.Success? ==> exists j :: 0 <= j <= ReadRetries(ed) && parse(j) == Some(r.value)
                                     && forall i :: 0 <= i < j ==> parse(i).None?)
  {
    var probe := Probe(fileExists);
    AttemptsSpec(probe, 0, ExistenceRetries);
    AttemptsSpec(parse, 0, ReadRetries(ed));
    var (found, n) := Attempts(probe, 0, ExistenceRetries);
    if found.None? {
      assert forall k :: 0 <= k <= ExistenceRetries ==> probe(k).None?;
    } else {
      assert fileExists(n);
    }
    var (content, m) := Attempts(parse, 0, ReadRetries(ed));
    if content.Some? {
      assert parse(m).Some?;
    }
  }

  /**
   * A cache file caught in the middle of being written: it parses only at
   * the second attempt. The split copy reads it; the older copy rejects.
   */
  lemma PartialWriteTolerated(fileExists: nat -> bool, parse: nat -> Option<Value>, doc: Value)
    requires fileExists(0) && parse(0).None? && parse(1) == Some(doc)
    ensures GetDataOutcome(Lib, fileExists, parse) == Success(doc)
    ensures GetDataOutcome(Legacy, fileExists, parse) == Failure(CacheFileNotParsed(0))
  {
    assert Attempts(Probe(fileExists), 0, ExistenceRetries) == (Some(()), 0);
    assert Attempts(parse, 1, 3) == (Some(doc), 1);
  }

  /**
   * `_.map(data.pages, page => page.path)`, and in the split copy the
   * `.filter(Boolean)` after it. Reading `pages` of a null document, or
   * `path` of a null page, throws.
   */
  function PagePaths(ed: Edition, data: Value): Result<seq<Value>, ClientError> {
    if Nullish(data) then Failure(DataTypeError)
    else
      var pages := Elements(Own(data, "pages"));
      if FirstIndex(pages, (v: Value) => Nullish(v)).Some? then Failure(DataTypeError)
      else
        match ed
        case Lib => Success(Filter(PathsOf(pages), Truthy))
        case Legacy => Success(PathsOf(pages))
  }

  /** `_.map(pages, page => page.path)`: each page's `path`, one per page, in page order. */
  function PathsOf(pages: seq<Value>): (r: seq<Value>)
    ensures |r| == |pages| && forall i :: 0 <= i < |pages| ==> r[i] == Own(pages[i], "path")
  {
    seq(|pages|, i requires 0 <= i < |pages| => Own(pages[i], "path"))
  }

  /** `pagePath + (pagePath !== '/' ? '/' : '')`: the path again with a trailing `/`, except the root. */
  function TrailingSlashed(p: Value): Value {
    Str(JsString(p) + (if p != Str("/") then "/" else ""))
  }

  /** The second copy of the path list that development mode appends. */
  function DevCopies(ps: seq<Value>): seq<Value> {
    seq(|ps|, i requires 0 <= i < |ps| => TrailingSlashed(ps[i]))
  }

  /** `getStaticPaths`: in development the list is followed by every path with a trailing `/`. */
  function StaticPaths(ed: Edition, data: Value, isDev: bool): Result<seq<Value>, ClientError> {
    match PagePaths(ed, data)
    case Failure(e) => Failure(e)
    case Success(ps) => Success(ps + if isDev then DevCopies(ps) else [])
  }

  /**
   * The paths listed: the split copy lists the truthy `path`s of the
   * pages, in page order and with repeats kept (its list is the filter of
   * the page paths); the older copy lists every page's `path`, one per page
   * and in page order. The list fails only on a null document or a null page.
   */
  lemma PagePathsSpec(ed: Edition, data: Value, x: Value)
    ensures var r := PagePaths(ed, data);
      var pages := Elements(Own(data, "pages"));
      (r.Failure? <==> Nullish(data) || exists i :: 0 <= i < |pages| && Nullish(pages[i]))
      && (r.Success? && ed == Lib ==>
            r.value == Filter(PathsOf(pages), Truthy)
            && (x in r.value <==> Truthy(x) && exists i :: 0 <= i < |pages| && Own(pages[i], "path") == x))
      && (r.Success? && ed == Legacy ==>
            |r.value| == |pages| && forall i :: 0 <= i < |pages| ==> r.value[i] == Own(pages[i], "path"))
  {
    if !Nullish(data) {
      var pages := Elements(Own(data, "pages"));
      var paths := PathsOf(pages);
      if FirstIndex(pages, (v: Value) => Nullish(v)).None? {
        FilterMembers(paths, Truthy, x);
        if x in paths {
          var i :| 0 <= i < |paths| && paths[i] == x;
          assert Own(pages[i], "path") == x;
        }
        if exists i :: 0 <= i < |pages| && Own(pages[i], "path") == x {
          var i :| 0 <= i < |pages| && Own(pages[i], "path") == x;
          assert paths[i] == x;
        }
      }
    }
  }

  /**
   * In development every listed path is also listed with a trailing `/`
   * after the whole list, and the root, which gains nothing, is listed twice.
   */
  lemma DevPathsSpec(ed: Edition, data: Value)
    requires PagePaths(ed, data).Success?
    ensures var ps := PagePaths(ed, data).value;
      var r := StaticPaths(ed, data, true).value;
      |r| == 2 * |ps| && r[..|ps|] == ps
      && (forall i :: 0 <= i < |ps| && ps[i].Str? && ps[i] != Str("/") ==> r[|ps| + i] == Str(ps[i].s + "/"))
      && (forall i :: 0 <= i < |ps| && ps[i] == Str("/") ==> r[i] == r[|ps| + i] == Str("/"))
    ensures StaticPaths(ed, data, false).value == PagePaths(ed, data).value
  {
    var ps := PagePaths(ed, data).value;
    assert StaticPaths(ed, data, true).value == ps + DevCopies(ps);
    assert StaticPaths(ed, data, false).value == ps + [];
    DevListShape(ps);
  }

  /** A path list followed by its development copies: each string path but the root gains a trailing `/`. */
  lemma DevListShape(ps: seq<Value>)
    ensures var r := ps + DevCopies(ps);
      |r| == 2 * |ps| && r[..|ps|] == ps
      && (forall i :: 0 <= i < |ps| && ps[i].Str? && ps[i] != Str("/") ==> r[|ps| + i] == Str(ps[i].s + "/"))
      && (forall i :: 0 <= i < |ps| && ps[i] == Str("/") ==> r[i] == r[|ps| + i] == Str("/"))
  {
    var r := ps + DevCopies(ps);
    assert r[..|ps|] == ps;
    forall i | 0 <= i < |ps| && ps[i].Str? && ps[i] != Str("/") ensures r[|ps| + i] == Str(ps[i].s + "/") {
      assert r[|ps| + i] == DevCopies(ps)[i];
      TrailingSlashedStr(ps[i]);
    }
    forall i | 0 <= i < |ps| && ps[i] == Str("/") ensures r[i] == r[|ps| + i] == Str("/") {
      assert r[|ps| + i] == DevCopies(ps)[i];
      TrailingSlashedStr(ps[i]);
    }
  }

  lemma TrailingSlashedStr(p: Value)
    ensures p.Str? && p != Str("/") ==> TrailingSlashed(p) == Str(p.s + "/")
    ensures p == Str("/") ==> TrailingSlashed(p) == Str("/")
  {
  }

  /**
   * The older copy lists a page without a path as `undefined`, and in
   * development as the string `"undefined/"`; the split copy leaves it out.
   */
  lemma MissingPathListed()
    ensures var data := Obj([Member("pages", Arr([Obj([])]))]);
      StaticPaths(Legacy, data, true) == Success([Undefined, Str("undefined/")])
      && StaticPaths(Lib, data, true) == Success([])
  {
    var data := Obj([Member("pages", Arr([Obj([])]))]);
    var pages := [Obj([])];
    assert Own(data, "pages") == Arr(pages);
    assert Own(pages[0], "path") == Undefined;
    assert FirstIndex(pages, (v: Value) => Nullish(v)) == None;
    var paths := PathsOf(pages);
    assert paths == [Undefined];
    assert Filter(paths, Truthy) == [];
    assert PagePaths(Legacy, data) == Success(paths);
    assert PagePaths(Lib, data) == Success([]);
    assert TrailingSlashed(Undefined) == Str("undefined/");
    var dev := DevCopies(paths);
    assert dev == [Str("undefined/")];
    assert StaticPaths(Legacy, data, true) == Success(paths + dev);
    assert paths + dev == [Undefined, Str("undefined/")];
    assert StaticPaths(Legacy, data, true) == Success([Undefined, Str("undefined/")]);
    assert DevCopies([]) == [];
  }

  /**
   * The path a page request asks for: an array of segments (a catch-all
   * route) is joined with `/`; the string is then normalised, by
   * `'/' + _.trim(p, '/')` in the split copy and by trimming the trailing
   * `/` and adding a leading one in the older copy.
   */
  function RequestPath(ed: Edition, pagePath: Value): string {
    var s := if pagePath.Arr? then Join(JsElementStrings(pagePath.items), "/") else LodashString(pagePath);
    Normalise(ed, s)
  }

  /** `_.matches({ path: p })`: an object whose own `path` is the string `p`. */
  function PageMatches(p: string): Value -> bool {
    (v: Value) => v.Obj? && Own(v, "path") == Str(p)
  }

  /** The segments of a path after its leading `/`, as Next.js passes them to a catch-all page. */
  function Segments(p: string): seq<Value>
    requires |p| >= 1
  {
    var parts := Split(p[1..], '/');
    seq(|parts|, i requires 0 <= i < |parts| => Str(parts[i]))
  }

  /** Strings joined by `Array.prototype.join` are written as they are. */
  lemma {:induction false} StringElements(parts: seq<string>)
    ensures JsElementStrings(seq(|parts|, i requires 0 <= i < |parts| => Str(parts[i]))) == parts
  {
    var xs := seq(|parts|, i requires 0 <= i < |parts| => Str(parts[i]));
    if parts != [] {
      StringElements(parts[1..]);
      assert xs[1..] == seq(|parts[1..]|, i requires 0 <= i < |parts[1..]| => Str(parts[1..][i]));
      assert parts == [parts[0]] + parts[1..];
    }
  }

  /** The older normalisation leaves a normal path alone. */
  lemma LegacyNormalFixed(p: string)
    requires IsNormalPath(p)
    ensures NormaliseLegacy(p) == p
  {
    if p == "/" {
      assert TrimEnd(p, Slash) == TrimEnd([], Slash) == [];
    } else {
      TrimEndKeeps(p, Slash);
    }
  }

  /** Both normalisations ignore one trailing `/` added to a normal path. */
  lemma TrailingSlashIgnored(ed: Edition, p: string)
    requires IsNormalPath(p)
    ensures Normalise(ed, p + "/") == p
  {
    var q := p + "/";
    assert q[..|q| - 1] == p;
    if p == "/" {
      assert TrimEnd(q, Slash) == TrimEnd(p, Slash) == TrimEnd([], Slash) == [];
      TrimStartKeeps([], Slash);
    } else {
      TrimEndKeeps(p, Slash);
      assert TrimEnd(q, Slash) == p;
      NormalPathFixed(p);
      assert Trim(q, Slash) == Trim(p, Slash);
    }
  }

  /**
   * A page request names a normal path `p` in any of the forms a Next.js
   * page can pass it in: `p` itself, `p` without its leading `/`, `p` with
   * a trailing `/` (the development variants of `getStaticPaths`), or the
   * segments of `p`. In both copies each form asks for `p`.
   */
  lemma RequestPathRoundTrip(ed: Edition, p: string)
    requires IsNormalPath(p)
    ensures RequestPath(ed, Str(p)) == p
    ensures RequestPath(ed, Str(p[1..])) == p
    ensures RequestPath(ed, Str(p + "/")) == p
    ensures RequestPath(ed, Arr(Segments(p))) == p
  {
    NormalPathFixed(p);
    LegacyNormalFixed(p);
    TrailingSlashIgnored(ed, p);
    var parts := Split(p[1..], '/');
    StringElements(parts);
    JoinSplit(p[1..], '/');
    assert Join(JsElementStrings(Segments(p)), "/") == p[1..];
    if p == "/" {
      assert p[1..] == [];
      assert TrimEnd([], Slash) == [] && TrimStart([], Slash) == [];
    } else {
      assert p[1..][0] != '/' && p[1..][|p[1..]| - 1] != '/';
      TrimEndKeeps(p[1..], Slash);
      TrimStartKeeps(p[1..], Slash);
      assert "/" + p[1..] == p;
    }
  }

  /**
   * The merge of `getPropsFromCMSDataForPagePath`, `_.assign(page, data.props)`:
   * the common props are copied onto the page found, or onto a new object
   * when there is none.
   */
  function PropsFor(pages: seq<Value>, props: Value, path: string): Value {
    match FirstIndex(pages, PageMatches(path))
    case Some(i) => Obj(AssignAll(pages[i].members, Spread(props)))
    case None => Obj(Spread(props))
  }

  /**
   * The answer to a page request: a common prop wins over a page field of
   * the same name, and the page's other fields are kept. When no page has
   * the path, the answer holds the common props and nothing else.
   */
  lemma PropsForSpec(pages: seq<Value>, props: Value, path: string, k: string)
    ensures var r := PropsFor(pages, props, path);
      var i := FirstIndex(pages, PageMatches(path));
      r.Obj?
      && (i.Some? ==>
            Lookup(r.members, k) ==
              if k in Keys(Spread(props)) then Lookup(Spread(props), k) else Lookup(pages[i.value].members, k))
      && (i.None? ==> Lookup(r.members, k) == Lookup(Spread(props), k))
  {
    var i := FirstIndex(pages, PageMatches(path));
    if i.Some? {
      AssignAllLookup(pages[i.value].members, Spread(props), k);
    }
  }

  /**
   * Unless the common props have a `path` of their own, the answer to a
   * request for a page that exists carries that page's path.
   */
  lemma FoundPageKeepsPath(pages: seq<Value>, props: Value, path: string)
    requires "path" !in Keys(Spread(props))
    requires exists i :: 0 <= i < |pages| && PageMatches(path)(pages[i])
    ensures Own(PropsFor(pages, props, path), "path") == Str(path)
  {
    var i := FirstIndex(pages, PageMatches(path));
    PropsForSpec(pages, props, path, "path");
    assert Lookup(pages[i.value].members, "path") == Some(Str(path));
  }

  /** The parsed cache file as `getPropsFromCMSDataForPagePath` sees it: the pages and the common props. */
  class CmsData {
    var pages: seq<Value>
    var props: Value

    /** `data.pages` and `data.props` of a document that is not null. */
    constructor (data: Value)
      requires !Nullish(data)
      ensures pages == Elements(Own(data, "pages")) && props == Own(data, "props")
    {
      pages := Elements(Own(data, "pages"));
      props := Own(data, "props");
    }

    /**
     * `getPropsFromCMSDataForPagePath(data, pagePath)`: the first page
     * whose path is the requested one gets the common props assigned onto
     * it in place, and is returned; with no such page a new object with
     * the common props is returned and the pages stay as they were.
     */
    method PropsForPagePath(ed: Edition, pagePath: Value) returns (r: Value)
      modifies this
      ensures r == PropsFor(old(pages), old(props), RequestPath(ed, pagePath))
      ensures props == old(props)
      ensures var i := FirstIndex(old(pages), PageMatches(RequestPath(ed, pagePath)));
        pages == if i.Some? then old(pages)[i.value := r] else old(pages)
    {
      var path := RequestPath(ed, pagePath);
      var i := FirstIndex(pages, PageMatches(path));
      if i.Some? {
        var page := pages[i.value];
        page := Obj(AssignAll(page.members, Spread(props)));
        pages := pages[i.value := page];
        r := page;
      } else {
        r := Obj(Spread(props));
      }
    }
  }

  /**
   * `getStaticPropsForPageAtPath(pagePath)`: read the cache file, then
   * answer from it; a null document makes the property read throw.
   */
  method GetStaticPropsForPageAtPath(ed: Edition, fileExists: nat -> bool, parse: nat -> Option<Value>, pagePath: Value)
    returns (r: Result<Value, ClientError>)
    ensures var d := GetDataOutcome(ed, fileExists, parse);
      (d.Failure? ==> r == Failure(d.error))
      && (d.Success? && Nullish(d.value) ==> r == Failure(DataTypeError))
      && (d.Success? && !Nullish(d.value) ==>
            r == Success(PropsFor(Elements(Own(d.value, "pages")), Own(d.value, "props"), RequestPath(ed, pagePath))))
  {
    var d := GetData(ed, fileExists, parse);
    if d.Failure? {
      return Failure(d.error);
    }
    if Nullish(d.value) {
      return Failure(DataTypeError);
    }
    var data := new CmsData(d.value);
    var props := data.PropsForPagePath(ed, pagePath);
    return Success(props);
  }

  /**
   * Every path either copy lists for a normal page path leads back to a
   * page with that path, whichever form the request takes: a page listed
   * by `getStaticPaths` is always found by `getStaticPropsForPageAtPath`.
   */
  lemma ListedPathsResolve(ed: Edition, pages: seq<Value>, k: nat, p: string, request: Value)
    requires k < |pages| && pages[k].Obj? && Own(pages[k], "path") == Str(p) && IsNormalPath(p)
    requires request in {Str(p), Str(p[1..]), TrailingSlashed(Str(p)), Arr(Segments(p))}
    ensures var i := FirstIndex(pages, PageMatches(RequestPath(ed, request)));
      i.Some? && i.value <= k && Own(pages[i.value], "path") == Str(p)
  {
    RequestPathRoundTrip(ed, p);
    if p != "/" {
      assert Str(p) != Str("/");
    }
    assert PageMatches(p)(pages[k]);
  }
}
