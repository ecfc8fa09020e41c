/**
 * JavaScript values as the plugin sees them (content objects, props
 * bags, page entries, options read from the cache file), and the lodash
 * primitives it applies to them: truthiness, own-property access, `_.get`
 * with a dotted path, `_.assign`, object spread and string conversion.
 *
 * An object is an ordered list of members, in insertion order (JavaScript
 * lists integer-like keys first; that order is not modelled). The
 * type does not forbid two members with one key (no JavaScript object has
 * them); as in `JSON.parse`, the LAST member with a key gives its value,
 * and assignment overwrites every member with that key.
 */
module JsValues {
  import opened Results
  import opened Text

  datatype Value =
    | Undefined
    | Null
    | Bool(b: bool)
    | Num(n: int)
    | Str(s: string)
    | Arr(items: seq<Value>)
    | Obj(members: seq<Member>)

  datatype Member = Member(key: string, val: Value)

  /** JavaScript truthiness: `undefined`, `null`, `false`, `0` and `""` are falsy. */
  predicate Truthy(v: Value) {
    match v
    case Undefined => false
    case Null => false
    case Bool(b) => b
    case Num(n) => n != 0
    case Str(s) => s != ""
    case Arr(_) => true
    case Obj(_) => true
  }

  /** `null` or `undefined`: reading a property of these throws a TypeError. */
  predicate Nullish(v: Value) {
    v.Undefined? || v.Null?
  }

  function Keys(ms: seq<Member>): (r: seq<string>)
    ensures |r| == |ms|
    ensures forall i :: 0 <= i < |ms| ==> r[i] == ms[i].key
  {
    seq(|ms|, i requires 0 <= i < |ms| => ms[i].key)
  }

  /** The value of the last member with key `k`. */
  function Lookup(ms: seq<Member>, k: string): (r: Option<Value>)
    ensures r.None? <==> k !in Keys(ms)
  {
    if ms == [] then None
    else if ms[|ms| - 1].key == k then Some(ms[|ms| - 1].val)
    else
      assert Keys(ms) == Keys(ms[..|ms| - 1]) + [ms[|ms| - 1].key];
      Lookup(ms[..|ms| - 1], k)
  }

  /** The index of `k` among the array indices `from`, `from + 1`, ... of `xs`. */
  function IndexNamed(xs: seq<Value>, k: string, from: nat): (r: Option<nat>)
    ensures r.Some? ==> from <= r.value < |xs| && NatToString(r.value) == k
    decreases |xs| - from
  {
    if from >= |xs| then None
    else if NatToString(from) == k then Some(from)
    else IndexNamed(xs, k, from + 1)
  }

  /** The own property `k` of `v` (`v[k]`), or undefined; the properties of a string and the `length` of an array are not modelled. */
  function Own(v: Value, k: string): (r: Value)
    ensures v.Obj? && k in Keys(v.members) ==> Some(r) == Lookup(v.members, k)
    ensures (v.Obj? && k !in Keys(v.members)) || !(v.Obj? || v.Arr?) ==> r == Undefined
  {
    match v
    case Obj(ms) =>
      (match Lookup(ms, k) case Some(x) => x case None => Undefined)
    case Arr(xs) =>
      (match IndexNamed(xs, k, 0) case Some(i) => xs[i] case None => Undefined)
    case _ => Undefined
  }

  /** `_.has(v, k)` for a key without dots: `v` owns a property `k`. */
  predicate HasOwn(v: Value, k: string) {
    match v
    case Obj(ms) => k in Keys(ms)
    case Arr(xs) => IndexNamed(xs, k, 0).Some?
    case _ => false
  }

  /** `ms` after `ms[k] = x`: every member with key `k` takes `x`, or a member is appended. */
  function Put(ms: seq<Member>, k: string, x: Value): (r: seq<Member>)
    ensures Lookup(r, k) == Some(x)
    ensures forall j :: j != k ==> Lookup(r, j) == Lookup(ms, j)
    ensures Keys(r) == if k in Keys(ms) then Keys(ms) else Keys(ms) + [k]
  {
    if k in Keys(ms) then Overwrite(ms, k, x) else
      assert Keys(ms + [Member(k, x)]) == Keys(ms) + [k];
      assert (ms + [Member(k, x)])[..|ms|] == ms;
      ms + [Member(k, x)]
  }

  function Overwrite(ms: seq<Member>, k: string, x: Value): (r: seq<Member>)
    ensures Keys(r) == Keys(ms)
    ensures k in Keys(ms) ==> Lookup(r, k) == Some(x)
    ensures forall j :: j != k ==> Lookup(r, j) == Lookup(ms, j)
    decreases |ms|
  {
    if ms == [] then []
    else
      var init := Overwrite(ms[..|ms| - 1], k, x);
      var last := ms[|ms| - 1];
      var r := init + [if last.key == k then Member(k, x) else last];
      OverwriteStep(ms, k, x, init, r);
      r
  }

  lemma OverwriteStep(ms: seq<Member>, k: string, x: Value, init: seq<Member>, r: seq<Member>)
    requires ms != []
    requires Keys(init) == Keys(ms[..|ms| - 1])
    requires k in Keys(ms[..|ms| - 1]) ==> Lookup(init, k) == Some(x)
    requires forall j :: j != k ==> Lookup(init, j) == Lookup(ms[..|ms| - 1], j)
    requires r == init + [if ms[|ms| - 1].key == k then Member(k, x) else ms[|ms| - 1]]
    ensures Keys(r) == Keys(ms)
    ensures k in Keys(ms) ==> Lookup(r, k) == Some(x)
    ensures forall j :: j != k ==> Lookup(r, j) == Lookup(ms, j)
  {
    var n := |ms| - 1;
    assert r[..n] == init;
    SnocKeys(ms);
    SnocKeys(r);
    forall j | j != k ensures Lookup(r, j) == Lookup(ms, j) {
      SnocLookup(r, j);
      SnocLookup(ms, j);
    }
    SnocLookup(r, k);
  }

  /** The keys of a non-empty member list: those of all but the last member, then the last one's. */
  lemma SnocKeys(ms: seq<Member>)
    requires ms != []
    ensures Keys(ms) == Keys(ms[..|ms| - 1]) + [ms[|ms| - 1].key]
  {
    var n := |ms| - 1;
    var a := Keys(ms[..n]) + [ms[n].key];
    forall i | 0 <= i < |ms| ensures Keys(ms)[i] == a[i] {
      if i < n {
        assert ms[..n][i] == ms[i];
      }
    }
  }

  /** The keys of a non-empty member list: the first member's, then those of the others. */
  lemma ConsKeys(ms: seq<Member>)
    requires ms != []
    ensures Keys(ms) == [ms[0].key] + Keys(ms[1..])
  {
    var a := [ms[0].key] + Keys(ms[1..]);
    forall i | 0 <= i < |ms| ensures Keys(ms)[i] == a[i] {
      if i > 0 {
        assert ms[1..][i - 1] == ms[i];
      }
    }
  }

  /** A lookup in a non-empty member list: the last member if it has the key, else the lookup in the others. */
  lemma SnocLookup(ms: seq<Member>, k: string)
    requires ms != []
    ensures Lookup(ms, k) == if ms[|ms| - 1].key == k then Some(ms[|ms| - 1].val) else Lookup(ms[..|ms| - 1], k)
  {
  }

  /** `Object.assign(target, source)` member by member: `src` is copied onto `ms` in order. */
  function AssignAll(ms: seq<Member>, src: seq<Member>): (r: seq<Member>)
    decreases |src|
  {
    if src == [] then ms
    else AssignAll(Put(ms, src[0].key, src[0].val), src[1..])
  }

  /** After an assignment the source wins every key it has; the target keeps the others. */
  lemma {:induction false} AssignAllLookup(ms: seq<Member>, src: seq<Member>, k: string)
    ensures Lookup(AssignAll(ms, src), k) == if k in Keys(src) then Lookup(src, k) else Lookup(ms, k)
    decreases |src|
  {
    if src != [] {
      var ms' := Put(ms, src[0].key, src[0].val);
      AssignAllLookup(ms', src[1..], k);
      ConsKeys(src);
      if k in Keys(src[1..]) {
        LookupLastWins(src, k);
      } else if k == src[0].key {
        LookupSingle(src, k);
      }
    }
  }

  /** A key that appears after the first member is looked up in the tail. */
  lemma {:induction false} LookupLastWins(ms: seq<Member>, k: string)
    requires ms != [] && k in Keys(ms[1..])
    ensures Lookup(ms, k) == Lookup(ms[1..], k)
    decreases |ms|
  {
    var last := ms[|ms| - 1];
    if last.key != k {
      var init := ms[..|ms| - 1];
      assert Keys(ms[1..]) == Keys(init[1..]) + [last.key] by {
        assert ms[1..] == init[1..] + [last];
      }
      assert init[1..] == ms[1..][..|ms[1..]| - 1];
      LookupLastWins(init, k);
    }
  }

  /** A key found only in the first member is looked up there. */
  lemma {:induction false} LookupSingle(ms: seq<Member>, k: string)
    requires ms != [] && ms[0].key == k && k !in Keys(ms[1..])
    ensures Lookup(ms, k) == Some(ms[0].val)
    decreases |ms|
  {
    if |ms| > 1 {
      var init := ms[..|ms| - 1];
      assert ms[|ms| - 1] == ms[1..][|ms| - 2];
      assert ms[|ms| - 1].key in Keys(ms[1..]);
      assert init[1..] == ms[1..][..|ms| - 2];
      assert Keys(ms[1..]) == Keys(init[1..]) + [ms[|ms| - 1].key];
      LookupSingle(init, k);
    }
  }

  /** The keys after an assignment: the target's keys, then the new ones. */
  lemma {:induction false} AssignAllKeys(ms: seq<Member>, src: seq<Member>, k: string)
    ensures k in Keys(AssignAll(ms, src)) <==> k in Keys(ms) || k in Keys(src)
    decreases |src|
  {
    if src != [] {
      AssignAllKeys(Put(ms, src[0].key, src[0].val), src[1..], k);
      ConsKeys(src);
    }
  }

  /** `ms[k] = x` on an object; a value that is not an object is returned as it is. */
  function SetField(v: Value, k: string, x: Value): (r: Value)
    ensures v.Obj? ==> r.Obj? && Own(r, k) == x
    ensures v.Obj? ==> forall j :: j != k ==> Own(r, j) == Own(v, j)
  {
    match v
    case Obj(ms) => Obj(Put(ms, k, x))
    case _ => v
  }

  /** The members of `v` as spread by `{...v}` or copied by `_.assign`: own enumerable properties. */
  function Spread(v: Value): (r: seq<Member>)
    ensures v.Obj? ==> r == v.members
    ensures v.Arr? ==> |r| == |v.items|
    ensures !(v.Obj? || v.Arr? || v.Str?) ==> r == []
  {
    match v
    case Obj(ms) => ms
    case Arr(xs) => seq(|xs|, i requires 0 <= i < |xs| => Member(NatToString(i), xs[i]))
    case Str(s) => seq(|s|, i requires 0 <= i < |s| => Member(NatToString(i), Str([s[i]])))
    case _ => []
  }

  /**
   * The values `_.reduce` and `_.map` visit in a collection: the elements of
   * an array, the characters of a string, the property values of an object;
   * nothing for other values.
   */
  function Elements(v: Value): (r: seq<Value>)
    ensures v.Arr? ==> r == v.items
    ensures v.Obj? ==> |r| == |v.members|
  {
    match v
    case Arr(xs) => xs
    case Obj(ms) => seq(|ms|, i requires 0 <= i < |ms| => ms[i].val)
    case Str(s) => seq(|s|, i requires 0 <= i < |s| => Str([s[i]]))
    case _ => []
  }

  /** The value reached from `v` through the property names `path`, undefined once the walk hits a missing one. */
  function GetPath(v: Value, path: seq<string>): (r: Value)
    ensures Nullish(v) && path != [] ==> r == Undefined
    decreases |path|
  {
    if path == [] then v else GetPath(Own(v, path[0]), path[1..])
  }

  /**
   * `_.get(v, name)` for a name without brackets: a key `v` owns is used as
   * it is; otherwise the name is a path of property names separated by dots.
   */
  function Get(v: Value, name: string): (r: Value)
    ensures HasOwn(v, name) ==> r == Own(v, name)
    ensures '.' !in name ==> r == Own(v, name)
  {
    if HasOwn(v, name) then Own(v, name)
    else
      assert '.' !in name ==> GetPath(v, Split(name, '.')) == Own(v, name) by {
        if '.' !in name {
          SingleSplit(name);
          assert [name][1..] == [];
        }
      }
      GetPath(v, Split(name, '.'))
  }

  /**
   * A dotted name that `v` does not own as a key is a walk through nested
   * properties: each dot-free segment is read from the value the previous
   * segments reached.
   */
  lemma GetDotted(v: Value, segs: seq<string>)
    requires |segs| >= 1 && forall k :: 0 <= k < |segs| ==> '.' !in segs[k]
    requires !HasOwn(v, Join(segs, "."))
    ensures Get(v, Join(segs, ".")) == GetPath(v, segs)
  {
    SplitJoin(segs, '.');
  }

  /** The walk reads the last property from the value the earlier ones reach. */
  lemma {:induction false} GetPathSnoc(v: Value, segs: seq<string>, k: string)
    ensures GetPath(v, segs + [k]) == Own(GetPath(v, segs), k)
    decreases |segs|
  {
    if segs == [] {
      assert ([] + [k])[1..] == [];
    } else {
      assert (segs + [k])[0] == segs[0] && (segs + [k])[1..] == segs[1..] + [k];
      GetPathSnoc(Own(v, segs[0]), segs[1..], k);
    }
  }

  /** `_.get(v, "a.b")` reads `b` of the value at `a`, unless `v` owns the key `a.b` itself. */
  lemma GetTwoSegments(v: Value, a: string, b: string)
    requires '.' !in a && '.' !in b && !HasOwn(v, a + "." + b)
    ensures Get(v, a + "." + b) == Own(Own(v, a), b)
  {
    assert Join([a, b], ".") == a + "." + b by {
      assert [a, b][1..] == [b];
    }
    GetDotted(v, [a, b]);
    calc {
      GetPath(v, [a, b]);
      { assert [a, b][0] == a && [a, b][1..] == [b]; }
      GetPath(Own(v, a), [b]);
      { assert [b][1..] == []; }
      GetPath(Own(Own(v, a), b), []);
    }
  }

  /** A string without dots splits into itself. */
  lemma {:induction false} SingleSplit(s: string)
    requires '.' !in s
    ensures Split(s, '.') == [s]
  {
    if s != [] {
      SingleSplit(s[1..]);
      assert [s[0]] + s[1..] == s;
    }
  }

  /** The string form of an array element for lodash's `baseToString`. */
  function BaseString(v: Value): string {
    match v
    case Undefined => "undefined"
    case Null => "null"
    case Bool(b) => if b then "true" else "false"
    case Num(n) => IntToString(n)
    case Str(s) => s
    case Arr(xs) => Join(BaseStrings(xs), ",")
    case Obj(_) => "[object Object]"
  }

  function BaseStrings(xs: seq<Value>): (r: seq<string>)
    ensures |r| == |xs|
  {
    if xs == [] then [] else [BaseString(xs[0])] + BaseStrings(xs[1..])
  }

  /** lodash `_.toString`: the empty string for `null` and `undefined`. */
  function LodashString(v: Value): (r: string)
    ensures v.Str? ==> r == v.s
    ensures Nullish(v) ==> r == ""
  {
    if Nullish(v) then "" else BaseString(v)
  }

  /** The ECMAScript ToString conversion applied by `+` with a string. */
  function JsString(v: Value): (r: string)
    ensures v.Str? ==> r == v.s
  {
    match v
    case Undefined => "undefined"
    case Null => "null"
    case Bool(b) => if b then "true" else "false"
    case Num(n) => IntToString(n)
    case Str(s) => s
    case Arr(xs) => Join(JsElementStrings(xs), ",")
    case Obj(_) => "[object Object]"
  }

  /** `Array.prototype.join` writes `null` and `undefined` elements as empty strings. */
  function JsElementStrings(xs: seq<Value>): (r: seq<string>)
    ensures |r| == |xs|
  {
    if xs == [] then []
    else [if Nullish(xs[0]) then "" else JsString(xs[0])] + JsElementStrings(xs[1..])
  }

  /** A size that every value strictly exceeds each of its parts by. */
  function Size(v: Value): (r: nat)
    ensures r >= 1
  {
    match v
    case Arr(xs) => 1 + SizeItems(xs)
    case Obj(ms) => 1 + SizeMembers(ms)
    case _ => 1
  }

  function SizeItems(xs: seq<Value>): nat {
    if xs == [] then 0 else Size(xs[0]) + SizeItems(xs[1..])
  }

  function SizeMembers(ms: seq<Member>): nat {
    if ms == [] then 0 else Size(ms[0].val) + SizeMembers(ms[1..])
  }

  /** Every element of an array is smaller than the array. */
  lemma {:induction false} ItemSmaller(xs: seq<Value>, i: nat)
    requires i < |xs|
    ensures Size(xs[i]) <= SizeItems(xs)
  {
    if i > 0 {
      ItemSmaller(xs[1..], i - 1);
    }
  }

  /** Every member value of an object is smaller than the object. */
  lemma {:induction false} MemberSmaller(ms: seq<Member>, i: nat)
    requires i < |ms|
    ensures Size(ms[i].val) <= SizeMembers(ms)
  {
    if i > 0 {
      MemberSmaller(ms[1..], i - 1);
    }
  }

  /** What `Lookup` finds is a member of the list. */
  lemma {:induction false} LookupIsMember(ms: seq<Member>, k: string)
    requires Lookup(ms, k).Some?
    ensures exists i :: 0 <= i < |ms| && ms[i].val == Lookup(ms, k).value
    decreases |ms|
  {
    if ms[|ms| - 1].key != k {
      LookupIsMember(ms[..|ms| - 1], k);
      var i :| 0 <= i < |ms| - 1 && ms[..|ms| - 1][i].val == Lookup(ms, k).value;
      assert ms[i].val == Lookup(ms, k).value;
    }
  }

  /** A property of an object or array is strictly smaller than it. */
  lemma OwnSmaller(v: Value, k: string)
    requires HasOwn(v, k)
    ensures Size(Own(v, k)) < Size(v)
  {
    match v
    case Obj(ms) =>
      LookupIsMember(ms, k);
      var i :| 0 <= i < |ms| && ms[i].val == Lookup(ms, k).value;
      MemberSmaller(ms, i);
    case Arr(xs) =>
      ItemSmaller(xs, IndexNamed(xs, k, 0).value);
  }
}
