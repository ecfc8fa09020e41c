/**
 * The data side of the interactive setup (lib/setup.js): the example
 * values shown next to each field of a model, and the setup data that the
 * answers accumulate into. The prompts themselves are not part of this
 * model; the answers are parameters.
 */
module Setup {
  import opened Results
  import opened Text
  import opened JsValues
  import opened PathTemplate

  /** The default `maxLength` of `getExampleFieldValues`. */
  const DefaultMaxLength: nat := 60

  datatype SetupError =
    | NullishObject(index: nat)   // destructuring a `null` or `undefined` object throws
    | NullishModel                // comparing the metadata reads a property of a `null` model

  /** The `__metadata` of an object. */
  function Meta(obj: Value): Value {
    Own(obj, "__metadata")
  }

  /** `fields[name]`, where `fields` is the object without its `__metadata`. */
  function FieldOf(obj: Value, name: string): Value {
    if name == "__metadata" then Undefined else Own(obj, name)
  }

  /**
   * `a === b` on two properties read from two different objects: equal
   * primitives; an object or an array is never strictly equal to a
   * property of another object.
   */
  predicate StrictEquals(a: Value, b: Value) {
    a == b && !a.Obj? && !a.Arr?
  }

  /** The metadata names the model on all four of its identifying properties. */
  predicate RightModel(model: Value, meta: Value) {
    StrictEquals(Own(meta, "modelName"), Own(model, "modelName"))
    && StrictEquals(Own(meta, "projectId"), Own(model, "projectId"))
    && StrictEquals(Own(meta, "projectEnvironment"), Own(model, "projectEnvironment"))
    && StrictEquals(Own(meta, "source"), Own(model, "source"))
  }

  /** The model's `fieldNames`, as property keys. */
  function FieldNames(model: Value): seq<string> {
    var names := Elements(Own(model, "fieldNames"));
    seq(|names|, i requires 0 <= i < |names| => JsString(names[i]))
  }

  /**
   * The example a field value gives: a boolean, number or string, in its
   * string form, with the surrounding whitespace trimmed, cut to
   * `maxLength` characters, and only when something is left.
   */
  function Example(v: Value, maxLength: nat): Option<string> {
    if !(v.Bool? || v.Num? || v.Str?) then None
    else
      var t := Trim(JsString(v), JsWhitespace);
      var cut := if |t| <= maxLength then t else t[..maxLength];
      if cut == [] then None else Some(cut)
  }

  /** A stored example is a non-empty start of the trimmed value, at most `maxLength` long, starting with no whitespace. */
  lemma ExampleShape(v: Value, maxLength: nat)
    requires Example(v, maxLength).Some?
    ensures var s := Example(v, maxLength).value;
      var t := Trim(JsString(v), JsWhitespace);
      1 <= |s| <= maxLength && s <= t && s[0] !in JsWhitespace
  {
    TrimSpec(JsString(v), JsWhitespace);
  }

  /** The field names that still have no example: `result[name] === undefined`. */
  function Pending(result: map<string, string>, names: seq<string>): (r: seq<string>)
    ensures forall f :: f in r <==> f in names && f !in result
  {
    if names == [] then []
    else (if names[0] !in result then [names[0]] else []) + Pending(result, names[1..])
  }

  /** The `forEach` over the pending names: each one with an example gets it. */
  function Fill(result: map<string, string>, pending: seq<string>, obj: Value, maxLength: nat): map<string, string>
    decreases |pending|
  {
    if pending == [] then result
    else
      var f := pending[0];
      var next := match Example(FieldOf(obj, f), maxLength)
        case Some(s) => result[f := s]
        case None => result;
      Fill(next, pending[1..], obj, maxLength)
  }

  /** `result[f]` as an option. */
  function MapGet(m: map<string, string>, f: string): Option<string> {
    if f in m then Some(m[f]) else None
  }

  /** A pending name with an example takes it; every other entry stays as it was. */
  lemma {:induction false} FillAt(result: map<string, string>, pending: seq<string>, obj: Value, maxLength: nat, f: string)
    ensures MapGet(Fill(result, pending, obj, maxLength), f) ==
      if f in pending && Example(FieldOf(obj, f), maxLength).Some? then Example(FieldOf(obj, f), maxLength)
      else MapGet(result, f)
    decreases |pending|
  {
    if pending != [] {
      var g := pending[0];
      var next := match Example(FieldOf(obj, g), maxLength)
        case Some(s) => result[g := s]
        case None => result;
      FillAt(next, pending[1..], obj, maxLength, f);
      assert f in pending <==> f == g || f in pending[1..];
    }
  }

  /** What one object of the `reduce` does to the examples found so far. */
  function ExamplesStep(model: Value, result: map<string, string>, obj: Value, index: nat, maxLength: nat): Result<map<string, string>, SetupError> {
    if Nullish(obj) then Failure(NullishObject(index))
    else if !Truthy(Meta(obj)) then Success(result)
    else if Nullish(model) then Failure(NullishModel)
    else if !RightModel(model, Meta(obj)) || !Own(model, "fieldNames").Arr? then Success(result)
    else Success(Fill(result, Pending(result, FieldNames(model)), obj, maxLength))
  }

  /** `getExampleFieldValues(model, objects, maxLength)`: the `reduce` over the objects, from `{}`. */
  function Examples(model: Value, objects: seq<Value>, maxLength: nat): Result<map<string, string>, SetupError> {
    if objects == [] then Success(map[])
    else
      match Examples(model, objects[..|objects| - 1], maxLength)
      case Failure(e) => Failure(e)
      case Success(r) => ExamplesStep(model, r, objects[|objects| - 1], |objects| - 1, maxLength)
  }

  /**
   * `getExampleFieldValues`: for each object of the model, the names
   * still without an example are picked first, and then each of them that
   * has a usable value in this object is filled in.
   */
  method ExampleFieldValues(model: Value, objects: seq<Value>, maxLength: nat) returns (r: Result<map<string, string>, SetupError>)
    ensures r == Examples(model, objects, maxLength)
  {
    var result: map<string, string> := map[];
    for i := 0 to |objects|
      invariant Examples(model, objects[..i], maxLength) == Success(result)
    {
      assert objects[..i + 1][..i] == objects[..i];
      var obj := objects[i];
      if Nullish(obj) {
        ExamplesFailureSticks(model, objects, maxLength, i + 1);
        return Failure(NullishObject(i));
      }
      var meta := Meta(obj);
      if !Truthy(meta) {
        continue;
      }
      if Nullish(model) {
        ExamplesFailureSticks(model, objects, maxLength, i + 1);
        return Failure(NullishModel);
      }
      if !RightModel(model, meta) || !Own(model, "fieldNames").Arr? {
        continue;
      }
      var pending := Pending(result, FieldNames(model));
      ghost var start := result;
      for j := 0 to |pending|
        invariant Fill(start, pending, obj, maxLength) == Fill(result, pending[j..], obj, maxLength)
      {
        assert pending[j..][1..] == pending[j + 1..];
        var f := pending[j];
        var example := Example(FieldOf(obj, f), maxLength);
        if example.Some? {
          result := result[f := example.value];
        }
      }
    }
    assert objects[..|objects|] == objects;
    r := Success(result);
  }

  /** Once the `reduce` throws, the rest of the objects do not matter. */
  lemma {:induction false} ExamplesFailureSticks(model: Value, objects: seq<Value>, maxLength: nat, k: nat)
    requires k <= |objects| && Examples(model, objects[..k], maxLength).Failure?
    ensures Examples(model, objects, maxLength) == Examples(model, objects[..k], maxLength)
    decreases |objects| - k
  {
    if k < |objects| {
      assert objects[..k + 1][..k] == objects[..k];
      ExamplesFailureSticks(model, objects, maxLength, k + 1);
    } else {
      assert objects[..k] == objects;
    }
  }

  /**
   * The `reduce` throws exactly when an object is `null` or `undefined`, or
   * when the model is and some object has truthy metadata.
   */
  lemma {:induction false} ExamplesFail(model: Value, objects: seq<Value>, maxLength: nat)
    ensures Examples(model, objects, maxLength).Failure? <==>
      exists i :: 0 <= i < |objects| && (Nullish(objects[i]) || (Nullish(model) && Truthy(Meta(objects[i]))))
  {
    if objects != [] {
      var init := objects[..|objects| - 1];
      ExamplesFail(model, init, maxLength);
      forall i | 0 <= i < |init| ensures init[i] == objects[i] { }
    }
  }

  /**
   * The example `obj` offers for field `f`: when it has metadata of the
   * model, the model lists `f` among an array of field names, and the
   * field's value gives one.
   */
  function Candidate(model: Value, obj: Value, f: string, maxLength: nat): Option<string> {
    if !Nullish(obj) && Truthy(Meta(obj)) && !Nullish(model) && RightModel(model, Meta(obj))
       && Own(model, "fieldNames").Arr? && f in FieldNames(model)
    then Example(FieldOf(obj, f), maxLength)
    else None
  }

  /** The example of the earliest object that offers one for `f`. */
  function FirstExample(model: Value, objects: seq<Value>, f: string, maxLength: nat): Option<string> {
    if objects == [] then None
    else
      match FirstExample(model, objects[..|objects| - 1], f, maxLength)
      case Some(s) => Some(s)
      case None => Candidate(model, objects[|objects| - 1], f, maxLength)
  }

  /**
   * First value wins: the example stored for a field is the one the
   * earliest object of the model offers, and a field has an example
   * exactly when some object offers one.
   */
  lemma {:induction false} ExamplesFirstWins(model: Value, objects: seq<Value>, maxLength: nat, f: string)
    requires Examples(model, objects, maxLength).Success?
    ensures MapGet(Examples(model, objects, maxLength).value, f) == FirstExample(model, objects, f, maxLength)
  {
    if objects != [] {
      var init := objects[..|objects| - 1];
      var obj := objects[|objects| - 1];
      ExamplesFirstWins(model, init, maxLength, f);
      var r := Examples(model, init, maxLength).value;
      if !Nullish(obj) && Truthy(Meta(obj)) && !Nullish(model) && RightModel(model, Meta(obj))
         && Own(model, "fieldNames").Arr? {
        FillAt(r, Pending(r, FieldNames(model)), obj, maxLength, f);
      }
    }
  }

  /** The first example is offered by one of the objects. */
  lemma {:induction false} FirstExampleOffered(model: Value, objects: seq<Value>, f: string, maxLength: nat)
    requires FirstExample(model, objects, f, maxLength).Some?
    ensures exists i :: 0 <= i < |objects| && Candidate(model, objects[i], f, maxLength) == FirstExample(model, objects, f, maxLength)
  {
    var init := objects[..|objects| - 1];
    if FirstExample(model, init, f, maxLength).Some? {
      FirstExampleOffered(model, init, f, maxLength);
      var i :| 0 <= i < |init| && Candidate(model, init[i], f, maxLength) == FirstExample(model, init, f, maxLength);
      assert init[i] == objects[i];
    } else {
      assert Candidate(model, objects[|objects| - 1], f, maxLength) == FirstExample(model, objects, f, maxLength);
    }
  }

  /**
   * Every stored example belongs to a field the model lists, comes from an
   * object of that model, and is a non-empty start of the trimmed value
   * of at most `maxLength` characters.
   */
  lemma StoredExamples(model: Value, objects: seq<Value>, maxLength: nat, f: string)
    requires Examples(model, objects, maxLength).Success?
    requires f in Examples(model, objects, maxLength).value
    ensures Own(model, "fieldNames").Arr? && f in FieldNames(model)
    ensures exists i :: 0 <= i < |objects| && Truthy(Meta(objects[i])) && RightModel(model, Meta(objects[i]))
    ensures var s := Examples(model, objects, maxLength).value[f];
      1 <= |s| <= maxLength && s[0] !in JsWhitespace
  {
    ExamplesFirstWins(model, objects, maxLength, f);
    FirstExampleOffered(model, objects, f, maxLength);
    var i :| 0 <= i < |objects| && Candidate(model, objects[i], f, maxLength) == FirstExample(model, objects, f, maxLength);
    ExampleShape(FieldOf(objects[i], f), maxLength);
  }

  /** A model without an array of field names gets no examples at all. */
  lemma NoFieldNamesNoExamples(model: Value, objects: seq<Value>, maxLength: nat)
    requires !Own(model, "fieldNames").Arr? && Examples(model, objects, maxLength).Success?
    ensures Examples(model, objects, maxLength).value == map[]
  {
    var r := Examples(model, objects, maxLength).value;
    forall f | f in r ensures false {
      StoredExamples(model, objects, maxLength, f);
    }
    assert r.Keys == {};
  }

  /**
   * The setup data the answers accumulate into. `getSetup` starts it as
   * `{ commonProps: [], pages: [] }` (index.js:236) and only the two
   * functions below produce new ones, so it never has other fields.
   */
  datatype SetupData = SetupData(commonProps: seq<Value>, pages: seq<Value>)

  const InitialSetup := SetupData([], [])

  /** The default answer to the page path question. */
  function DefaultPagePath(model: Value, slugField: Value): string {
    var name := JsString(Own(model, "modelName"));
    if Truthy(slugField) then "/" + name + "/{slug}" else "/" + name
  }

  /**
   * With a slug field, the default page path has one placeholder, `slug`:
   * a page with a truthy `slug` gets the model's path followed by its slug,
   * and any other page fails to interpolate.
   */
  lemma DefaultPagePathRenders(model: Value, slugField: Value, page: Value)
    requires Truthy(slugField) && '{' !in JsString(Own(model, "modelName"))
    ensures var prefix := "/" + JsString(Own(model, "modelName")) + "/";
      Substitute(DefaultPagePath(model, slugField), page) ==
        if Truthy(Get(page, "slug")) then Success(prefix + FieldText(page, "slug"))
        else Failure(MissingField("slug"))
  {
    var prefix := "/" + JsString(Own(model, "modelName")) + "/";
    assert DefaultPagePath(model, slugField) == prefix + "{" + "slug" + "}";
    SingleField(prefix, "slug", page);
  }

  /** The entry `{ pagePath, slugField, __model }` a page model adds. */
  function PageEntry(pagePath: Value, slugField: Value, model: Value): Value {
    Obj([Member("pagePath", pagePath), Member("slugField", slugField), Member("__model", model)])
  }

  /** `getSetupForPage` after the prompts: the setup with one more page entry. */
  function SetupForPage(setup: SetupData, pagePath: Value, slugField: Value, model: Value): SetupData {
    setup.(pages := setup.pages + [PageEntry(pagePath, slugField, model)])
  }

  /** The answers of the prop questions, which `getSetupForProp` extends in place with the model. */
  class PropAnswers {
    var members: seq<Member>

    /** `{ isMultiple, propName }` as the prompt returns them. */
    constructor (isMultiple: bool, propName: Value)
      ensures members == [Member("isMultiple", Bool(isMultiple)), Member("propName", propName)]
    {
      members := [Member("isMultiple", Bool(isMultiple)), Member("propName", propName)];
    }

    /** `answers.__model = model`. */
    method SetModel(model: Value)
      modifies this
      ensures members == Put(old(members), "__model", model)
    {
      members := Put(members, "__model", model);
    }
  }

  /** `getSetupForProp` after the prompts: the answers gain the model and are appended to the common props. */
  method SetupForProp(setup: SetupData, answers: PropAnswers, model: Value) returns (r: SetupData)
    modifies answers
    ensures answers.members == Put(old(answers.members), "__model", model)
    ensures r == setup.(commonProps := setup.commonProps + [Obj(answers.members)])
  {
    answers.SetModel(model);
    r := setup.(commonProps := setup.commonProps + [Obj(answers.members)]);
  }

  /** A prop entry carries the model, and the answers it was given keep their values. */
  lemma PropEntryFields(isMultiple: bool, propName: Value, model: Value)
    ensures var e := Obj(Put([Member("isMultiple", Bool(isMultiple)), Member("propName", propName)], "__model", model));
      Own(e, "__model") == model && Own(e, "isMultiple") == Bool(isMultiple) && Own(e, "propName") == propName
  {
    var ms := [Member("isMultiple", Bool(isMultiple)), Member("propName", propName)];
    assert Keys(ms) == ["isMultiple", "propName"];
    assert ms[..1] == [Member("isMultiple", Bool(isMultiple))];
    assert Lookup(ms, "isMultiple") == Some(Bool(isMultiple));
  }

  /** The page answers in the order the queue runs them: path, slug field, model. */
  function SetupForPages(setup: SetupData, answers: seq<(Value, Value, Value)>): SetupData {
    if answers == [] then setup
    else
      var (pagePath, slugField, model) := answers[|answers| - 1];
      SetupForPage(SetupForPages(setup, answers[..|answers| - 1]), pagePath, slugField, model)
  }

  /**
   * The chained page setups add one entry per answered page model, in the
   * order the models were chosen, after the entries already there, and
   * leave the common props alone.
   */
  lemma {:induction false} SetupForPagesSpec(setup: SetupData, answers: seq<(Value, Value, Value)>)
    ensures var r := SetupForPages(setup, answers);
      r.commonProps == setup.commonProps
      && |r.pages| == |setup.pages| + |answers|
      && r.pages[..|setup.pages|] == setup.pages
      && forall i :: 0 <= i < |answers| ==>
           r.pages[|setup.pages| + i] == PageEntry(answers[i].0, answers[i].1, answers[i].2)
  {
    if answers != [] {
      var init := answers[..|answers| - 1];
      SetupForPagesSpec(setup, init);
      var prev := SetupForPages(setup, init);
      var r := SetupForPages(setup, answers);
      assert r.pages == prev.pages + [PageEntry(answers[|answers| - 1].0, answers[|answers| - 1].1, answers[|answers| - 1].2)];
      forall i | 0 <= i < |answers|
        ensures r.pages[|setup.pages| + i] == PageEntry(answers[i].0, answers[i].1, answers[i].2)
      {
        if i < |init| {
          assert init[i] == answers[i];
        }
      }
    }
  }
}
