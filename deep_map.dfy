/**
 * `mapDeep` (lib/transform.js:105-127, index.js:59-81): a pre-order
 * rewrite of a JSON-like value. The iteratee is applied to a value first,
 * and the traversal then descends into whatever the iteratee returned, if
 * that is an object or an array. The older and the split copies are the
 * same code, so one definition serves both.
 *
 * The only iteratee the plugin passes is the asset flattening of
 * `reduceAndTransformData` (lib/transform.js:89-97, index.js:44-52); it
 * replaces a nested asset object by its `url`, which is a part of the
 * asset, so it never makes a value larger. Termination of `mapDeep` for an
 * arbitrary iteratee is not something JavaScript promises; the model asks
 * for iteratees that do not grow their argument.
 */
module DeepMap {
  import opened JsValues

  /** A step of a key path: an object key, or an array index (lodash passes the index as a number). */
  datatype Key = Name(name: string) | Index(i: nat)

  /** The iteratee sees the value, the keys leading to it, and the collections above it. */
  type Iteratee = (Value, seq<Key>, seq<Value>) -> Value

  /** The iteratee never returns something larger than its argument. */
  ghost predicate NonGrowing(f: Iteratee) {
    forall v, kp, st :: Size(f(v, kp, st)) <= Size(v)
  }

  /** The `iterateCollections` and `iterateScalars` options, as read with `_.get(options, name, true)`. */
  datatype MapOptions = MapOptions(iterateCollections: Value, iterateScalars: Value)

  /** No options at all: both kinds of values are passed to the iteratee. */
  const NoOptions := MapOptions(Undefined, Undefined)

  /** An option that is not given reads as `true`; one that is given counts by its truthiness. */
  predicate Enabled(flag: Value) {
    flag.Undefined? || Truthy(flag)
  }

  /** `_.isPlainObject(v) || _.isArray(v)`. */
  predicate IsCollection(v: Value) {
    v.Obj? || v.Arr?
  }

  /** The value after the iteratee has had its turn: only when the option for the value's kind allows it. */
  function Visit(v: Value, f: Iteratee, opts: MapOptions, keyPath: seq<Key>, stack: seq<Value>): Value {
    var iterate := if IsCollection(v) then Enabled(opts.iterateCollections) else Enabled(opts.iterateScalars);
    if iterate then f(v, keyPath, stack) else v
  }

  /** `_.concat(stack, w)`: an array's elements are appended one by one, anything else as one entry. */
  function Push(stack: seq<Value>, w: Value): (r: seq<Value>)
    ensures w.Arr? ==> r == stack + w.items
    ensures !w.Arr? ==> r == stack + [w]
  {
    match w
    case Arr(xs) => stack + xs
    case _ => stack + [w]
  }

  /** The same kind of value, with the same keys for an object and the same length for an array. */
  predicate SameShape(a: Value, b: Value) {
    match a
    case Obj(ms) => b.Obj? && Keys(b.members) == Keys(ms)
    case Arr(xs) => b.Arr? && |b.items| == |xs|
    case _ => a == b
  }

  /**
   * `mapDeep(v, f, opts, keyPath, stack)`. The result has the shape of what
   * the iteratee returned for `v` (its own keys, or its length), and it is
   * never larger than `v`.
   */
  function MapDeep(v: Value, f: Iteratee, opts: MapOptions, keyPath: seq<Key>, stack: seq<Value>): (r: Value)
    requires NonGrowing(f)
    ensures SameShape(Visit(v, f, opts, keyPath, stack), r)
    ensures Size(r) <= Size(v)
    decreases Size(v), 0
  {
    var w := Visit(v, f, opts, keyPath, stack);
    match w
    case Obj(ms) => Obj(MapMembers(ms, f, opts, keyPath, Push(stack, w)))
    case Arr(xs) => Arr(MapItems(xs, 0, f, opts, keyPath, Push(stack, w)))
    case _ => w
  }

  /**
   * `_.mapValues` over the members of an object: each member keeps its key,
   * and its value is mapped with that key appended to the key path.
   */
  function MapMembers(ms: seq<Member>, f: Iteratee, opts: MapOptions, keyPath: seq<Key>, stack: seq<Value>): (r: seq<Member>)
    requires NonGrowing(f)
    ensures Keys(r) == Keys(ms)
    ensures SizeMembers(r) <= SizeMembers(ms)
    decreases SizeMembers(ms), 1
  {
    if ms == [] then []
    else
      var head := Member(ms[0].key, MapDeep(ms[0].val, f, opts, keyPath + [Name(ms[0].key)], stack));
      var rest := MapMembers(ms[1..], f, opts, keyPath, stack);
      assert ([head] + rest)[1..] == rest;
      ConsKeys(ms);
      ConsKeys([head] + rest);
      [head] + rest
  }

  /**
   * `_.map` over the elements of an array: the element at position `from + i`
   * is mapped with that index appended to the key path.
   */
  function MapItems(xs: seq<Value>, from: nat, f: Iteratee, opts: MapOptions, keyPath: seq<Key>, stack: seq<Value>): (r: seq<Value>)
    requires NonGrowing(f)
    ensures |r| == |xs|
    ensures SizeItems(r) <= SizeItems(xs)
    decreases SizeItems(xs), 1
  {
    if xs == [] then []
    else
      var head := MapDeep(xs[0], f, opts, keyPath + [Index(from)], stack);
      [head] + MapItems(xs[1..], from + 1, f, opts, keyPath, stack)
  }

  /** Each member keeps its key, and its value is mapped on its own, with its key appended to the key path. */
  lemma {:induction false} MapMembersAt(ms: seq<Member>, f: Iteratee, opts: MapOptions, keyPath: seq<Key>, stack: seq<Value>, i: nat)
    requires NonGrowing(f) && i < |ms|
    ensures var r := MapMembers(ms, f, opts, keyPath, stack);
      |r| == |ms| && r[i] == Member(ms[i].key, MapDeep(ms[i].val, f, opts, keyPath + [Name(ms[i].key)], stack))
  {
    if i > 0 {
      MapMembersAt(ms[1..], f, opts, keyPath, stack, i - 1);
    }
  }

  /** The element at position `i` is mapped on its own, with its index `from + i` appended to the key path. */
  lemma {:induction false} MapItemsAt(xs: seq<Value>, from: nat, f: Iteratee, opts: MapOptions, keyPath: seq<Key>, stack: seq<Value>, i: nat)
    requires NonGrowing(f) && i < |xs|
    ensures MapItems(xs, from, f, opts, keyPath, stack)[i] == MapDeep(xs[i], f, opts, keyPath + [Index(from + i)], stack)
  {
    if i > 0 {
      MapItemsAt(xs[1..], from + 1, f, opts, keyPath, stack, i - 1);
    }
  }

  /** The iteratee that changes nothing. */
  function Identity(): Iteratee {
    (v: Value, kp: seq<Key>, st: seq<Value>) => v
  }

  /** Mapping with the identity gives back the value unchanged, at any depth and under any options. */
  lemma {:induction false} MapIdentity(v: Value, opts: MapOptions, keyPath: seq<Key>, stack: seq<Value>)
    ensures NonGrowing(Identity()) && MapDeep(v, Identity(), opts, keyPath, stack) == v
    decreases Size(v), 0
  {
    var w := Visit(v, Identity(), opts, keyPath, stack);
    assert w == v;
    match v
    case Obj(ms) =>
      MembersIdentity(ms, opts, keyPath, Push(stack, v));
    case Arr(xs) =>
      ItemsIdentity(xs, 0, opts, keyPath, Push(stack, v));
    case _ =>
  }

  lemma {:induction false} MembersIdentity(ms: seq<Member>, opts: MapOptions, keyPath: seq<Key>, stack: seq<Value>)
    ensures NonGrowing(Identity()) && MapMembers(ms, Identity(), opts, keyPath, stack) == ms
    decreases SizeMembers(ms), 1
  {
    if ms != [] {
      MapIdentity(ms[0].val, opts, keyPath + [Name(ms[0].key)], stack);
      MembersIdentity(ms[1..], opts, keyPath, stack);
      assert [ms[0]] + ms[1..] == ms;
    }
  }

  lemma {:induction false} ItemsIdentity(xs: seq<Value>, from: nat, opts: MapOptions, keyPath: seq<Key>, stack: seq<Value>)
    ensures NonGrowing(Identity()) && MapItems(xs, from, Identity(), opts, keyPath, stack) == xs
    decreases SizeItems(xs), 1
  {
    if xs != [] {
      MapIdentity(xs[0], opts, keyPath + [Index(from)], stack);
      ItemsIdentity(xs[1..], from + 1, opts, keyPath, stack);
      assert [xs[0]] + xs[1..] == xs;
    }
  }

  /**
   * An asset reference inside a content object: its `__metadata.modelName`
   * is `"__asset"` and it has an own `url`.
   */
  predicate IsAsset(v: Value) {
    Get(v, "__metadata.modelName") == Str("__asset") && HasOwn(v, "url")
  }

  /**
   * The iteratee of `flattenAssetUrls`: deeper than the top-level objects
   * (key path longer than one), an asset is replaced by its `url`.
   */
  function FlattenAssets(): Iteratee {
    (v: Value, kp: seq<Key>, st: seq<Value>) => if |kp| > 1 && IsAsset(v) then Own(v, "url") else v
  }

  /** Replacing an asset by its `url` never makes a value larger, so the traversal terminates. */
  lemma FlattenAssetsNonGrowing()
    ensures NonGrowing(FlattenAssets())
  {
    forall v, kp, st ensures Size(FlattenAssets()(v, kp, st)) <= Size(v) {
      if |kp| > 1 && IsAsset(v) {
        OwnSmaller(v, "url");
      }
    }
  }

  /**
   * `reduceAndTransformData` with `flattenAssetUrls` set: the objects
   * mapped by `mapDeep` with the flattening iteratee and no options.
   */
  function FlattenAssetUrls(objects: Value): (r: Value)
    ensures Size(r) <= Size(objects)
  {
    FlattenAssetsNonGrowing();
    MapDeep(objects, FlattenAssets(), NoOptions, [], [])
  }

  /**
   * The top-level objects are never replaced, even when they are assets
   * themselves: a list of objects stays a list of the same length, and each
   * object keeps its own keys.
   */
  lemma TopLevelKept(objects: seq<Value>, i: nat)
    requires i < |objects|
    ensures var r := FlattenAssetUrls(Arr(objects));
      r.Arr? && |r.items| == |objects| && SameShape(objects[i], r.items[i])
  {
    FlattenAssetsNonGrowing();
    var f := FlattenAssets();
    var stack := Push([], Arr(objects));
    assert Visit(Arr(objects), f, NoOptions, [], []) == Arr(objects);
    var r := FlattenAssetUrls(Arr(objects));
    assert r.items == MapItems(objects, 0, f, NoOptions, [], stack);
    MapItemsAt(objects, 0, f, NoOptions, [], stack, i);
    assert [] + [Index(0 + i)] == [Index(i)];
    assert Visit(objects[i], f, NoOptions, [Index(i)], stack) == objects[i];
  }

  /**
   * Below the top level, an asset whose `url` is a string is replaced by
   * that string.
   */
  lemma NestedAssetFlattened(v: Value, keyPath: seq<Key>, stack: seq<Value>)
    requires |keyPath| > 1 && IsAsset(v) && Own(v, "url").Str?
    ensures NonGrowing(FlattenAssets()) && MapDeep(v, FlattenAssets(), NoOptions, keyPath, stack) == Own(v, "url")
  {
    FlattenAssetsNonGrowing();
    assert Visit(v, FlattenAssets(), NoOptions, keyPath, stack) == Own(v, "url");
  }

  /** A value that is not an asset is kept by the flattening iteratee itself; only its parts may change. */
  lemma NonAssetShapeKept(v: Value, keyPath: seq<Key>, stack: seq<Value>)
    requires !IsAsset(v)
    ensures NonGrowing(FlattenAssets()) && SameShape(v, MapDeep(v, FlattenAssets(), NoOptions, keyPath, stack))
  {
    FlattenAssetsNonGrowing();
    assert Visit(v, FlattenAssets(), NoOptions, keyPath, stack) == v;
  }
}
