/**
 * `reducePropsMap` and `reducePages` (lib/transform.js:129-194,
 * index.js:83-146): the props bag shared by every page, and the list of
 * page entries written to the cache file.
 *
 * A props map or a page type's predicate is a lodash iteratee; the model
 * takes it as a total test on values. A props or pages option that is a
 * function is called with the objects; the model takes it as a total
 * function from values to values.
 */
module Reducers {
  import opened Results
  import opened Text
  import opened JsValues
  import opened PathTemplate

  /** One entry of a props map: `single` (read with `_.get`) and the test objects are matched with. */
  datatype PropDef = PropDef(single: Value, matches: Value -> bool)

  /** The `commonProps` option, or a page type's `props`. */
  datatype PropsSpec =
    | PropsFunction(f: Value -> Value)          // called as `propsMap(objects, { slugify })`
    | PropsMap(defs: seq<(string, PropDef)>)    // the entries of the map in key order; no map means no entries

  /** A page type of the declarative `pages` option. */
  datatype PageTypeDef = PageTypeDef(matches: Value -> bool, path: Value, props: PropsSpec)

  /** The `pages` option. */
  datatype PagesSpec =
    | PagesFunction(f: Value -> Value)          // called as `pages(objects, { slugify })`
    | PageTypes(defs: seq<PageTypeDef>)

  /** The split copy reads `item.path` outside its `try`: a `null` or `undefined` page item throws. */
  datatype TransformError = PageItemTypeError(index: nat)

  /** The position of the first element that passes `p`. */
  function FirstIndex(xs: seq<Value>, p: Value -> bool): (r: Option<nat>)
    ensures r.Some? ==> r.value < |xs| && p(xs[r.value]) && forall j :: 0 <= j < r.value ==> !p(xs[j])
    ensures r.None? ==> forall j :: 0 <= j < |xs| ==> !p(xs[j])
  {
    if xs == [] then None
    else if p(xs[0]) then Some(0)
    else
      match FirstIndex(xs[1..], p)
      case Some(i) => Some(i + 1)
      case None => None
  }

  /** `_.find(collection, p)`: the first element that passes, or undefined. */
  function Find(collection: Value, p: Value -> bool): (r: Value)
    ensures var xs := Elements(collection);
      (r == Undefined && forall j :: 0 <= j < |xs| ==> !p(xs[j]))
      || exists i :: 0 <= i < |xs| && r == xs[i] && p(xs[i]) && forall j :: 0 <= j < i ==> !p(xs[j])
  {
    var xs := Elements(collection);
    match FirstIndex(xs, p)
    case Some(i) => xs[i]
    case None => Undefined
  }

  /** `_.filter(collection, p)` on the elements: those that pass, in order. */
  function Filter(xs: seq<Value>, p: Value -> bool): (r: seq<Value>)
    ensures |r| <= |xs|
  {
    if xs == [] then []
    else (if p(xs[0]) then [xs[0]] else []) + Filter(xs[1..], p)
  }

  /** The filtered elements are exactly the elements that pass. */
  lemma {:induction false} FilterMembers(xs: seq<Value>, p: Value -> bool, x: Value)
    ensures x in Filter(xs, p) <==> x in xs && p(x)
  {
    if xs != [] {
      FilterMembers(xs[1..], p, x);
      assert xs == [xs[0]] + xs[1..];
    }
  }

  /** Filtering keeps order and repeats: the filter of two runs is the two filters one after the other. */
  lemma {:induction false} FilterAppend(xs: seq<Value>, ys: seq<Value>, p: Value -> bool)
    ensures Filter(xs + ys, p) == Filter(xs, p) + Filter(ys, p)
    decreases |xs|
  {
    if xs == [] {
      assert xs + ys == ys;
    } else {
      var head := if p(xs[0]) then [xs[0]] else [];
      assert Filter(xs + ys, p) == head + Filter(xs[1..] + ys, p) by {
        assert (xs + ys)[0] == xs[0] && (xs + ys)[1..] == xs[1..] + ys;
      }
      FilterAppend(xs[1..], ys, p);
      calc {
        head + (Filter(xs[1..], p) + Filter(ys, p));
        (head + Filter(xs[1..], p)) + Filter(ys, p);
      }
    }
  }

  /** A single element is kept exactly when it passes. */
  lemma FilterSingle(x: Value, p: Value -> bool)
    ensures Filter([x], p) == if p(x) then [x] else []
  {
    assert [x][1..] == [];
  }

  /** The value a prop definition contributes: the first match when `single` is truthy, else every match. */
  function PropValue(d: PropDef, objects: Value): Value {
    if Truthy(d.single) then Find(objects, d.matches)
    else Arr(Filter(Elements(objects), d.matches))
  }

  /** The members `_.reduce` builds with `_.assign({}, accum, { [name]: value })`, entry by entry. */
  function FoldProps(defs: seq<(string, PropDef)>, objects: Value): seq<Member>
    decreases |defs|
  {
    if defs == [] then []
    else
      var last := defs[|defs| - 1];
      Put(FoldProps(defs[..|defs| - 1], objects), last.0, PropValue(last.1, objects))
  }

  /** The names a props map defines. */
  function Names(defs: seq<(string, PropDef)>): set<string> {
    set i | 0 <= i < |defs| :: defs[i].0
  }

  /** The names of a props map are those of all but its last entry, and the last entry's. */
  lemma NamesSnoc(defs: seq<(string, PropDef)>)
    requires defs != []
    ensures Names(defs) == Names(defs[..|defs| - 1]) + {defs[|defs| - 1].0}
  {
    var init := defs[..|defs| - 1];
    forall n | n in Names(defs) ensures n in Names(init) + {defs[|defs| - 1].0} {
      var i :| 0 <= i < |defs| && defs[i].0 == n;
      if i < |defs| - 1 {
        assert init[i] == defs[i];
      }
    }
    forall n | n in Names(init) ensures n in Names(defs) {
      var i :| 0 <= i < |init| && init[i].0 == n;
      assert defs[i] == init[i];
    }
  }

  /** The position of the last definition of `name` in a props map. */
  predicate LastDefinition(defs: seq<(string, PropDef)>, name: string, i: int) {
    0 <= i < |defs| && defs[i].0 == name && forall j :: i < j < |defs| ==> defs[j].0 != name
  }

  /** A last definition stays last when a definition of another name is appended. */
  lemma LastDefinitionSnoc(defs: seq<(string, PropDef)>, name: string, i: int)
    requires defs != [] && defs[|defs| - 1].0 != name
    requires LastDefinition(defs[..|defs| - 1], name, i)
    ensures LastDefinition(defs, name, i)
  {
    var init := defs[..|defs| - 1];
    forall j | i < j < |defs| ensures defs[j].0 != name {
      if j < |defs| - 1 {
        assert defs[j] == init[j];
      }
    }
  }

  /**
   * Each name of a props map holds the value of its LAST definition (a
   * JavaScript object cannot hold two), and no other names appear.
   */
  lemma {:induction false} FoldPropsLookup(defs: seq<(string, PropDef)>, objects: Value, name: string)
    ensures Lookup(FoldProps(defs, objects), name).None? <==> name !in Names(defs)
    ensures name in Names(defs) ==>
      exists i :: LastDefinition(defs, name, i)
        && Lookup(FoldProps(defs, objects), name) == Some(PropValue(defs[i].1, objects))
    decreases |defs|
  {
    if defs != [] {
      var n := |defs| - 1;
      var init := defs[..n];
      var last := defs[n];
      FoldPropsLookup(init, objects, name);
      NamesSnoc(defs);
      var r := FoldProps(defs, objects);
      assert r == Put(FoldProps(init, objects), last.0, PropValue(last.1, objects));
      if name == last.0 {
        assert LastDefinition(defs, name, n);
      } else if name in Names(init) {
        var i :| LastDefinition(init, name, i)
          && Lookup(FoldProps(init, objects), name) == Some(PropValue(init[i].1, objects));
        LastDefinitionSnoc(defs, name, i);
      }
    }
  }

  /**
   * `reducePropsMap(propsMap, objects)`: the result of the function, or an
   * object with one member per name of the map.
   */
  function ReducePropsMap(spec: PropsSpec, objects: Value): (r: Value)
    ensures spec.PropsMap? ==> r.Obj?
  {
    match spec
    case PropsFunction(f) => f(objects)
    case PropsMap(defs) => Obj(FoldProps(defs, objects))
  }

  /** A page type with a falsy `path` uses the template `/{slug}`. */
  function TemplateOf(d: PageTypeDef): (r: Value)
    ensures Truthy(r)
  {
    if Truthy(d.path) then d.path else Str("/{slug}")
  }

  /**
   * The entry `{ path, page, ...props }`: the props are copied after `path`
   * and `page`, so a prop with one of those names replaces it.
   */
  function Entry(path: string, page: Value, props: Value): Value {
    Obj(AssignAll([Member("path", Str(path)), Member("page", page)], Spread(props)))
  }

  /** An entry's `path` and `page` are the given ones unless the props bring their own. */
  lemma EntryFields(path: string, page: Value, props: Value)
    ensures Own(Entry(path, page, props), "path") ==
      if "path" in Keys(Spread(props)) then Lookup(Spread(props), "path").value else Str(path)
    ensures Own(Entry(path, page, props), "page") ==
      if "page" in Keys(Spread(props)) then Lookup(Spread(props), "page").value else page
  {
    var base := [Member("path", Str(path)), Member("page", page)];
    assert Keys(base) == ["path", "page"];
    assert Lookup(base, "path") == Some(Str(path)) by {
      assert base[..1] == [Member("path", Str(path))];
    }
    AssignedField(base, Spread(props), "path", Str(path));
    AssignedField(base, Spread(props), "page", page);
  }

  /** A field the target already has reads, after an assignment, as the source's value if it has one. */
  lemma AssignedField(base: seq<Member>, src: seq<Member>, k: string, v: Value)
    requires Lookup(base, k) == Some(v)
    ensures Own(Obj(AssignAll(base, src)), k) == if k in Keys(src) then Lookup(src, k).value else v
  {
    AssignAllLookup(base, src, k);
  }

  /**
   * The entries for the pages one page type matched: each page whose path
   * resolves gives one entry; a page whose path does not resolve is skipped.
   */
  function EntriesOf(ed: Edition, pages: seq<Value>, template: Value, props: Value): seq<Value> {
    if pages == [] then []
    else PageEntries(ed, pages[0], template, props) + EntriesOf(ed, pages[1..], template, props)
  }

  /** What one matching page adds: its entry when its path resolves, nothing when the interpolation throws. */
  function PageEntries(ed: Edition, page: Value, template: Value, props: Value): seq<Value> {
    match Interpolate(ed, template, page)
    case Success(p) => [Entry(p, page, props)]
    case Failure(_) => []
  }

  /**
   * The entries are exactly the entries of the pages whose path resolves,
   * each with the path resolved for its page.
   */
  lemma {:induction false} EntriesOfSpec(ed: Edition, pages: seq<Value>, template: Value, props: Value, e: Value)
    ensures e in EntriesOf(ed, pages, template, props) <==>
      exists page :: page in pages && Interpolate(ed, template, page).Success?
        && e == Entry(Interpolate(ed, template, page).value, page, props)
  {
    if pages != [] {
      EntriesOfSpec(ed, pages[1..], template, props, e);
      var rest := EntriesOf(ed, pages[1..], template, props);
      if e !in EntriesOf(ed, pages, template, props) {
        forall page | page in pages && Interpolate(ed, template, page).Success?
          ensures e != Entry(Interpolate(ed, template, page).value, page, props)
        {
          if page != pages[0] {
            assert page in pages[1..];
          }
        }
      } else if e !in rest {
        assert Interpolate(ed, template, pages[0]).Success?;
      } else {
        var page :| page in pages[1..] && Interpolate(ed, template, page).Success?
          && e == Entry(Interpolate(ed, template, page).value, page, props);
        assert page in pages;
      }
    }
  }

  /** The entries of two runs of pages are those of the first run, then those of the second. */
  lemma {:induction false} EntriesOfAppend(ed: Edition, a: seq<Value>, b: seq<Value>, template: Value, props: Value)
    ensures EntriesOf(ed, a + b, template, props) == EntriesOf(ed, a, template, props) + EntriesOf(ed, b, template, props)
    decreases |a|
  {
    if a == [] {
      assert a + b == b;
    } else {
      var head := PageEntries(ed, a[0], template, props);
      assert EntriesOf(ed, a + b, template, props) == head + EntriesOf(ed, a[1..] + b, template, props) by {
        assert (a + b)[0] == a[0] && (a + b)[1..] == a[1..] + b;
      }
      EntriesOfAppend(ed, a[1..], b, template, props);
      calc {
        head + (EntriesOf(ed, a[1..], template, props) + EntriesOf(ed, b, template, props));
        (head + EntriesOf(ed, a[1..], template, props)) + EntriesOf(ed, b, template, props);
      }
    }
  }

  /** One page gives one entry, with its resolved path, when its path resolves, and none otherwise. */
  lemma EntriesOfSingle(ed: Edition, page: Value, template: Value, props: Value)
    ensures Interpolate(ed, template, page).Success? ==>
      EntriesOf(ed, [page], template, props) == [Entry(Interpolate(ed, template, page).value, page, props)]
    ensures Interpolate(ed, template, page).Failure? ==> EntriesOf(ed, [page], template, props) == []
  {
    assert [page][1..] == [];
  }

  /** Every entry of a page type is one page plus one resolved path. */
  lemma {:induction false} EntriesOfLength(ed: Edition, pages: seq<Value>, template: Value, props: Value)
    ensures |EntriesOf(ed, pages, template, props)| <= |pages|
  {
    if pages != [] {
      EntriesOfLength(ed, pages[1..], template, props);
    }
  }

  /** The entries of one page type: its matching objects, its template and its props. */
  function EntriesFor(ed: Edition, d: PageTypeDef, objects: Value): seq<Value> {
    EntriesOf(ed, Filter(Elements(objects), d.matches), TemplateOf(d), ReducePropsMap(d.props, objects))
  }

  /** The blocks `_.concat` appends one after another, from the first. */
  function Flatten(blocks: seq<seq<Value>>): seq<Value>
    decreases |blocks|
  {
    if blocks == [] then [] else Flatten(blocks[..|blocks| - 1]) + blocks[|blocks| - 1]
  }

  /** An element of the concatenation is an element of one of the blocks. */
  lemma {:induction false} FlattenMembers(blocks: seq<seq<Value>>, x: Value)
    ensures x in Flatten(blocks) <==> exists i :: 0 <= i < |blocks| && x in blocks[i]
    decreases |blocks|
  {
    if blocks != [] {
      var n := |blocks| - 1;
      var init := blocks[..n];
      FlattenMembers(init, x);
      if x in Flatten(init) {
        var i :| 0 <= i < |init| && x in init[i];
        assert blocks[i] == init[i];
      } else if x !in blocks[n] {
        forall i | 0 <= i < |blocks| ensures x !in blocks[i] {
          if i < n {
            assert blocks[i] == init[i];
          }
        }
      }
    }
  }

  /** The entries of each page type, in the order of the types. */
  function EntryBlocks(ed: Edition, defs: seq<PageTypeDef>, objects: Value): (r: seq<seq<Value>>)
    ensures |r| == |defs| && forall i :: 0 <= i < |defs| ==> r[i] == EntriesFor(ed, defs[i], objects)
  {
    MapSeq(defs, (d: PageTypeDef) => EntriesFor(ed, d, objects))
  }

  /** `_.map(xs, f)`: `f` applied to each element, in order. */
  function MapSeq<T, U>(xs: seq<T>, f: T -> U): (r: seq<U>)
    ensures |r| == |xs| && forall i :: 0 <= i < |xs| ==> r[i] == f(xs[i])
  {
    seq(|xs|, i requires 0 <= i < |xs| => f(xs[i]))
  }

  /** The declarative `pages` option: the entries of each page type, concatenated in the order of the types. */
  function DeclarativePages(ed: Edition, defs: seq<PageTypeDef>, objects: Value): seq<Value> {
    Flatten(EntryBlocks(ed, defs, objects))
  }

  /** Concatenating two runs of blocks is concatenating their concatenations. */
  lemma {:induction false} FlattenAppend(a: seq<seq<Value>>, b: seq<seq<Value>>)
    ensures Flatten(a + b) == Flatten(a) + Flatten(b)
    decreases |b|
  {
    if b == [] {
      assert a + b == a;
    } else {
      var n := |b| - 1;
      calc {
        Flatten(a + b);
        { assert (a + b)[..|a + b| - 1] == a + b[..n] && (a + b)[|a + b| - 1] == b[n]; }
        Flatten(a + b[..n]) + b[n];
        { FlattenAppend(a, b[..n]); }
        (Flatten(a) + Flatten(b[..n])) + b[n];
        Flatten(a) + Flatten(b);
      }
    }
  }

  /**
   * The page types are processed in order: the result for two runs of
   * page types is the result of the first run followed by that of the second.
   */
  lemma DeclarativePagesAppend(ed: Edition, d1: seq<PageTypeDef>, d2: seq<PageTypeDef>, objects: Value)
    ensures DeclarativePages(ed, d1 + d2, objects) == DeclarativePages(ed, d1, objects) + DeclarativePages(ed, d2, objects)
  {
    EntryBlocksAppend(ed, d1, d2, objects);
    FlattenAppend(EntryBlocks(ed, d1, objects), EntryBlocks(ed, d2, objects));
  }

  lemma EntryBlocksAppend(ed: Edition, d1: seq<PageTypeDef>, d2: seq<PageTypeDef>, objects: Value)
    ensures EntryBlocks(ed, d1 + d2, objects) == EntryBlocks(ed, d1, objects) + EntryBlocks(ed, d2, objects)
  {
    MapSeqAppend(d1, d2, (d: PageTypeDef) => EntriesFor(ed, d, objects));
  }

  /** Mapping keeps order: the map of two runs is the two maps one after the other. */
  lemma MapSeqAppend<T, U>(xs: seq<T>, ys: seq<T>, f: T -> U)
    ensures MapSeq(xs + ys, f) == MapSeq(xs, f) + MapSeq(ys, f)
  {
    var r, a, b := MapSeq(xs + ys, f), MapSeq(xs, f), MapSeq(ys, f);
    forall i | 0 <= i < |r| ensures r[i] == (a + b)[i] {
      if i < |xs| {
        assert (xs + ys)[i] == xs[i];
      } else {
        assert (xs + ys)[i] == ys[i - |xs|];
      }
    }
  }


  /**
   * One page type gives the entries of its matching objects, in the order
   * of the objects: a page that matches and resolves gives one entry.
   */
  lemma DeclarativePagesSingle(ed: Edition, d: PageTypeDef, objects: Value)
    ensures DeclarativePages(ed, [d], objects) == EntriesFor(ed, d, objects)
  {
    var blocks := EntryBlocks(ed, [d], objects);
    assert blocks[..0] == [];
    assert Flatten(blocks) == Flatten([]) + blocks[0];
  }

  /** Page type `d` turns `page`, one of the objects, into the entry `e`. */
  predicate Produces(ed: Edition, d: PageTypeDef, objects: Value, page: Value, e: Value) {
    page in Elements(objects) && d.matches(page)
    && Interpolate(ed, TemplateOf(d), page).Success?
    && e == Entry(Interpolate(ed, TemplateOf(d), page).value, page, ReducePropsMap(d.props, objects))
  }

  /** The entries of one page type are exactly those it produces from some object. */
  lemma EntriesForSpec(ed: Edition, d: PageTypeDef, objects: Value, e: Value)
    ensures e in EntriesFor(ed, d, objects) <==> exists page :: Produces(ed, d, objects, page, e)
  {
    var matching := Filter(Elements(objects), d.matches);
    var template, props := TemplateOf(d), ReducePropsMap(d.props, objects);
    EntriesOfSpec(ed, matching, template, props, e);
    if e in EntriesFor(ed, d, objects) {
      var page :| page in matching && Interpolate(ed, template, page).Success?
        && e == Entry(Interpolate(ed, template, page).value, page, props);
      FilterMembers(Elements(objects), d.matches, page);
      assert Produces(ed, d, objects, page, e);
    } else {
      forall page ensures !Produces(ed, d, objects, page, e) {
        FilterMembers(Elements(objects), d.matches, page);
      }
    }
  }

  /** The declarative result holds exactly the entries of its page types. */
  lemma DeclarativePagesMembers(ed: Edition, defs: seq<PageTypeDef>, objects: Value, e: Value)
    ensures e in DeclarativePages(ed, defs, objects) <==>
      exists i :: 0 <= i < |defs| && e in EntriesFor(ed, defs[i], objects)
  {
    var blocks := EntryBlocks(ed, defs, objects);
    FlattenMembers(blocks, e);
    if e in Flatten(blocks) {
      var i :| 0 <= i < |blocks| && e in blocks[i];
      assert e in EntriesFor(ed, defs[i], objects);
    }
  }

  /**
   * An entry is in the declarative result exactly when some page type
   * matched its page, resolved its path and gave its props.
   */
  lemma DeclarativePagesSpec(ed: Edition, defs: seq<PageTypeDef>, objects: Value, e: Value)
    ensures e in DeclarativePages(ed, defs, objects) <==>
      exists i, page :: 0 <= i < |defs| && Produces(ed, defs[i], objects, page, e)
  {
    DeclarativePagesMembers(ed, defs, objects, e);
    if e in DeclarativePages(ed, defs, objects) {
      var i :| 0 <= i < |defs| && e in EntriesFor(ed, defs[i], objects);
      EntriesForSpec(ed, defs[i], objects, e);
      var page :| Produces(ed, defs[i], objects, page, e);
    } else {
      forall i, page | 0 <= i < |defs| ensures !Produces(ed, defs[i], objects, page, e) {
        EntriesForSpec(ed, defs[i], objects, e);
      }
    }
  }

  /**
   * In the split copy, every declarative entry whose props do not bring
   * their own `path` carries a normal page path.
   */
  lemma DeclarativePathNormal(d: PageTypeDef, objects: Value, e: Value)
    requires e in EntriesFor(Lib, d, objects)
    requires "path" !in Keys(Spread(ReducePropsMap(d.props, objects)))
    ensures Own(e, "path").Str? && IsNormalPath(Own(e, "path").s)
  {
    var props := ReducePropsMap(d.props, objects);
    EntriesOfSpec(Lib, Filter(Elements(objects), d.matches), TemplateOf(d), props, e);
    var page :| page in Filter(Elements(objects), d.matches)
      && Interpolate(Lib, TemplateOf(d), page).Success?
      && e == Entry(Interpolate(Lib, TemplateOf(d), page).value, page, props);
    EntryFields(Interpolate(Lib, TemplateOf(d), page).value, page, props);
    InterpolateShape(Lib, TemplateOf(d), page);
  }

  /** `_.concat(accum, item)` appends an array's elements one by one and anything else as one entry. */
  function ConcatItem(item: Value): (r: seq<Value>)
    ensures item.Arr? ==> r == item.items
    ensures !item.Arr? ==> r == [item]
  {
    match item
    case Arr(xs) => xs
    case _ => [item]
  }

  /**
   * What one item returned by a `pages` function adds to the page list.
   * The split copy (lib/transform.js:135-146) keeps an item without a
   * `path` or whose path does not resolve, and fails on an item that is
   * `null` or `undefined`; the older copy (index.js:89-97) drops every item
   * whose path does not resolve, including those.
   */
  function PageItem(ed: Edition, item: Value): Result<seq<Value>, ()> {
    match ed
    case Lib =>
      if Nullish(item) then Failure(())
      else if !Truthy(Own(item, "path")) then Success(ConcatItem(item))
      else
        (match Interpolate(Lib, Own(item, "path"), Own(item, "page"))
         case Success(p) => Success([SetField(item, "path", Str(p))])
         case Failure(_) => Success(ConcatItem(item)))
    case Legacy =>
      match Interpolate(Legacy, Own(item, "path"), Own(item, "page"))
      case Success(p) => Success([SetField(item, "path", Str(p))])
      case Failure(_) => Success([])
  }

  /** The page list `_.reduce` builds from the items of a `pages` function, from `[]`. */
  function FunctionModePages(ed: Edition, items: seq<Value>): (r: Result<seq<Value>, TransformError>)
    decreases |items|
  {
    if items == [] then Success([])
    else
      var n := |items| - 1;
      match FunctionModePages(ed, items[..n])
      case Failure(e) => Failure(e)
      case Success(acc) =>
        match PageItem(ed, items[n])
        case Success(added) => Success(acc + added)
        case Failure(_) => Failure(PageItemTypeError(n))
  }

  /**
   * The reduce over the items of a `pages` function, step by step; the
   * item's `path` is overwritten with the resolved one.
   */
  method ReducePageItems(ed: Edition, items: seq<Value>) returns (r: Result<seq<Value>, TransformError>)
    ensures r == FunctionModePages(ed, items)
  {
    var accum: seq<Value> := [];
    var i := 0;
    while i < |items|
      invariant 0 <= i <= |items|
      invariant FunctionModePages(ed, items[..i]) == Success(accum)
    {
      var added := PageItem(ed, items[i]);
      PagesStep(ed, items, i, accum);
      if added.Failure? {
        FailureSticks(ed, items, i + 1);
        assert items[..|items|] == items;
        return Failure(PageItemTypeError(i));
      }
      accum := accum + added.value;
      i := i + 1;
    }
    assert items[..i] == items;
    r := Success(accum);
  }

  /** One more item: the reduce so far is extended by what the item adds, or fails at that item. */
  lemma PagesStep(ed: Edition, items: seq<Value>, i: nat, accum: seq<Value>)
    requires i < |items| && FunctionModePages(ed, items[..i]) == Success(accum)
    ensures FunctionModePages(ed, items[..i + 1]) ==
      match PageItem(ed, items[i])
      case Success(added) => Success(accum + added)
      case Failure(_) => Failure(PageItemTypeError(i))
  {
    assert items[..i + 1][..i] == items[..i];
  }

  /** Once an item fails, every longer run of items fails with the same error. */
  lemma {:induction false} FailureSticks(ed: Edition, items: seq<Value>, k: nat)
    requires 0 < k <= |items|
    requires FunctionModePages(ed, items[..k]).Failure?
    ensures FunctionModePages(ed, items) == FunctionModePages(ed, items[..k])
    decreases |items| - k
  {
    if k < |items| {
      assert items[..k + 1][..k] == items[..k];
      FailureSticks(ed, items, k + 1);
    } else {
      assert items[..k] == items;
    }
  }

  /** A split-copy item throws exactly when it is `null` or `undefined`. */
  lemma LibItemFails(item: Value)
    ensures PageItem(Lib, item).Failure? <==> Nullish(item)
  {
  }

  /** One step of the split copy's reduce: it fails on the new item exactly when that item is nullish. */
  lemma LibStep(items: seq<Value>)
    requires items != []
    ensures var n := |items| - 1; var before := FunctionModePages(Lib, items[..n]);
      var r := FunctionModePages(Lib, items);
      (before.Failure? ==> r == before)
      && (before.Success? ==> (r.Failure? <==> Nullish(items[n])))
      && (before.Success? && r.Failure? ==> r.error.index == n)
  {
    LibItemFails(items[|items| - 1]);
  }

  /** The index at which the split copy's reduce throws: the first nullish item. */
  function FirstNullish(items: seq<Value>): (r: Option<nat>)
    decreases |items|
  {
    if items == [] then None
    else
      var n := |items| - 1;
      match FirstNullish(items[..n])
      case Some(i) => Some(i)
      case None => if Nullish(items[n]) then Some(n) else None
  }

  /** `FirstNullish` finds the first nullish item, and finds none only when there is none. */
  lemma {:induction false} FirstNullishSpec(items: seq<Value>)
    ensures FirstNullish(items).Some? <==> exists i :: 0 <= i < |items| && Nullish(items[i])
    ensures FirstNullish(items).Some? ==>
      var i := FirstNullish(items).value;
      i < |items| && Nullish(items[i]) && forall j :: 0 <= j < i ==> !Nullish(items[j])
    decreases |items|
  {
    if items != [] {
      var n := |items| - 1;
      var init := items[..n];
      FirstNullishSpec(init);
      if FirstNullish(init).Some? {
        var i := FirstNullish(init).value;
        assert init[i] == items[i];
      } else if !Nullish(items[n]) {
        forall i | 0 <= i < |items| ensures !Nullish(items[i]) {
          if i < n {
            assert init[i] == items[i];
          }
        }
      }
    }
  }

  /** The split copy's reduce throws exactly at the first nullish item. */
  lemma {:induction false} LibFailsAtFirstNullish(items: seq<Value>)
    ensures FunctionModePages(Lib, items).Failure? <==> FirstNullish(items).Some?
    ensures FunctionModePages(Lib, items).Failure? ==>
      FunctionModePages(Lib, items).error.index == FirstNullish(items).value
    decreases |items|
  {
    if items != [] {
      LibFailsAtFirstNullish(items[..|items| - 1]);
      LibStep(items);
    }
  }

  /** The split copy fails exactly when some item is `null` or `undefined`, and names the first. */
  lemma LibFunctionModeFails(items: seq<Value>)
    ensures FunctionModePages(Lib, items).Failure? <==> exists i :: 0 <= i < |items| && Nullish(items[i])
    ensures FunctionModePages(Lib, items).Failure? ==>
      var i := FunctionModePages(Lib, items).error.index;
      i < |items| && Nullish(items[i]) && forall j :: 0 <= j < i ==> !Nullish(items[j])
  {
    LibFailsAtFirstNullish(items);
    FirstNullishSpec(items);
  }

  /** Only an object has an own property named `path`: the names of array indices are digits. */
  lemma PathOnlyOnObjects(item: Value)
    requires Own(item, "path") != Undefined
    ensures item.Obj?
  {

  }

  /**
   * The older copy keeps an item exactly when its `path` resolves against
   * its `page`, and then keeps it once, as an object whose `path` is the
   * resolved one and whose other properties are unchanged.
   */
  lemma LegacyPageItem(item: Value)
    ensures var r := PageItem(Legacy, item);
      var t := Interpolate(Legacy, Own(item, "path"), Own(item, "page"));
      r.Success? && (r.value != [] <==> t.Success?)
      && (t.Success? ==>
            r.value == [SetField(item, "path", Str(t.value))] && LegacyEntry(r.value[0])
            && Own(r.value[0], "path") == Str(t.value)
            && forall k :: k != "path" ==> Own(r.value[0], k) == Own(item, k))
  {
    var t := Interpolate(Legacy, Own(item, "path"), Own(item, "page"));
    if t.Success? {
      ResolvedItemIsEntry(item, t.value);
      PathOnlyOnObjects(item);
    }
  }

  /** An item whose path the older copy resolves becomes an object carrying that path. */
  lemma ResolvedItemIsEntry(item: Value, p: string)
    requires Interpolate(Legacy, Own(item, "path"), Own(item, "page")) == Success(p)
    ensures LegacyEntry(SetField(item, "path", Str(p)))
  {
    InterpolateShape(Legacy, Own(item, "path"), Own(item, "page"));
    PathOnlyOnObjects(item);
  }

  /** An object whose `path` starts with `/` and does not end with one unless it is the root. */
  predicate LegacyEntry(e: Value) {
    e.Obj? && Own(e, "path").Str?
    && var p := Own(e, "path").s;
    |p| >= 1 && p[0] == '/' && (p == "/" || p[|p| - 1] != '/')
  }

  /**
   * The older copy never fails, keeps at most one entry per item, and every
   * entry it keeps is an object whose `path` is a resolved path.
   */
  lemma {:induction false} LegacyFunctionModePaths(items: seq<Value>)
    ensures FunctionModePages(Legacy, items).Success?
    ensures |FunctionModePages(Legacy, items).value| <= |items|
    ensures forall e :: e in FunctionModePages(Legacy, items).value ==> LegacyEntry(e)
    decreases |items|
  {
    if items != [] {
      var n := |items| - 1;
      LegacyFunctionModePaths(items[..n]);
      var acc := FunctionModePages(Legacy, items[..n]).value;
      LegacyPageItem(items[n]);
      var added := PageItem(Legacy, items[n]).value;
      assert FunctionModePages(Legacy, items) == Success(acc + added);
      forall e | e in acc + added ensures LegacyEntry(e) {
        if e !in acc {
          assert e == added[0];
        }
      }
    }
  }

  /**
   * The split copy's policy for one item: a `null` or `undefined` item
   * throws; an item without a truthy `path`, or whose path does not
   * resolve, is kept unchanged (spread if it is an array); an item whose
   * path resolves is kept once, with that path, which is normal, in place
   * of its own and its other properties unchanged.
   */
  lemma LibPageItem(item: Value)
    ensures var r := PageItem(Lib, item);
      var path := Own(item, "path");
      var t := Interpolate(Lib, path, Own(item, "page"));
      (r.Failure? <==> Nullish(item))
      && (!Nullish(item) && (!Truthy(path) || t.Failure?) ==> r.value == ConcatItem(item))
      && (!Nullish(item) && Truthy(path) && t.Success? ==>
            r.value == [SetField(item, "path", Str(t.value))]
            && r.value[0].Obj? && Own(r.value[0], "path") == Str(t.value) && IsNormalPath(t.value)
            && forall k :: k != "path" ==> Own(r.value[0], k) == Own(item, k))
  {
    if !Nullish(item) && Truthy(Own(item, "path")) {
      PathOnlyOnObjects(item);
      InterpolateShape(Lib, Own(item, "path"), Own(item, "page"));
    }
  }

  /** The older copy resolves an item's `path` against its `page`. */
  predicate LegacyResolves(item: Value) {
    Interpolate(Legacy, Own(item, "path"), Own(item, "page")).Success?
  }

  /** The item with its `path` replaced by the resolved one; an item that does not resolve is left alone. */
  function WithResolvedPath(item: Value): Value {
    match Interpolate(Legacy, Own(item, "path"), Own(item, "page"))
    case Success(p) => SetField(item, "path", Str(p))
    case Failure(_) => item
  }

  /** The older copy's page list by another route: the items whose path resolves, in order, each with that path. */
  function LegacyKept(items: seq<Value>): seq<Value> {
    MapSeq(Filter(items, LegacyResolves), WithResolvedPath)
  }

  /** The older copy's whole reduce is a filter followed by a map, and never throws. */
  lemma {:induction false} LegacyFunctionModeSpec(items: seq<Value>)
    ensures FunctionModePages(Legacy, items) == Success(LegacyKept(items))
    decreases |items|
  {
    if items == [] {
      assert MapSeq([], WithResolvedPath) == [];
    } else {
      var n := |items| - 1;
      LegacyFunctionModeSpec(items[..n]);
      LegacyItemKept(items[n]);
      LegacyKeptSnoc(items);
    }
  }

  /** What the older copy adds for one item is the reference definition applied to that item alone. */
  lemma LegacyItemKept(item: Value)
    ensures PageItem(Legacy, item) == Success(MapSeq(if LegacyResolves(item) then [item] else [], WithResolvedPath))
  {
    if LegacyResolves(item) {
      assert MapSeq([item], WithResolvedPath) == [WithResolvedPath(item)];
    } else {
      assert MapSeq([], WithResolvedPath) == [];
    }
  }

  lemma LegacyKeptSnoc(items: seq<Value>)
    requires items != []
    ensures var n := |items| - 1;
      LegacyKept(items) == LegacyKept(items[..n]) + MapSeq(if LegacyResolves(items[n]) then [items[n]] else [], WithResolvedPath)
  {
    var n := |items| - 1;
    var init, last := items[..n], items[n];
    assert items == init + [last];
    FilterAppend(init, [last], LegacyResolves);
    FilterSingle(last, LegacyResolves);
    MapSeqAppend(Filter(init, LegacyResolves), if LegacyResolves(last) then [last] else [], WithResolvedPath);
  }

  /** `reducePages(pages, objects)` of either copy. */
  function ReducePages(ed: Edition, spec: PagesSpec, objects: Value): Result<seq<Value>, TransformError> {
    match spec
    case PagesFunction(f) => FunctionModePages(ed, Elements(f(objects)))
    case PageTypes(defs) => Success(DeclarativePages(ed, defs, objects))
  }
}
