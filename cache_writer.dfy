/**
 * The `transform` and `bootstrap` hooks of the plugin (lib/transform.js:17-53
 * and 88-103, index.js:43-57 and 294-330): the objects are reduced to the
 * document written to the cache file, and when live updates are on, the
 * document's props are extended with what a page needs to listen for
 * changes.
 *
 * The cache file itself, the socket server and the event emitter are not
 * part of this model: `Transform` returns the document it would write and
 * whether it would emit the change event.
 */
module CacheWriter {
  import opened Results
  import opened JsValues
  import opened PathTemplate
  import opened DeepMap
  import opened Reducers

  /** The event a page listens for (lib/transform.js:13, index.js:17). */
  const LiveUpdateEventName: string := "props_changed"

  /** The port of the live update socket when none is configured (lib/transform.js:14, index.js:19). */
  const DefaultLiveUpdatePort: int := 8088

  /** The options the two hooks read. */
  datatype PluginOptions = PluginOptions(
    commonProps: PropsSpec,
    pages: PagesSpec,
    flattenAssetUrls: Value,
    liveUpdate: Value,
    liveUpdatePort: Value,
    liveUpdateClientPort: Value)

  /** `_.get(options, name, fallback)`: the fallback replaces only an undefined option. */
  function OrDefault(v: Value, fallback: Value): Value {
    if v.Undefined? then fallback else v
  }

  /** Whether live updates are on: the option, or whether the process runs in development mode. */
  function LiveUpdate(opts: PluginOptions, isDev: bool): Value {
    OrDefault(opts.liveUpdate, Bool(isDev))
  }

  /** The port the socket server listens on. */
  function ServerPort(opts: PluginOptions): Value {
    OrDefault(opts.liveUpdatePort, Num(DefaultLiveUpdatePort))
  }

  /** The port pages are told to connect to: the client port if given, else the server's. */
  function ClientPort(opts: PluginOptions): Value {
    OrDefault(opts.liveUpdateClientPort, ServerPort(opts))
  }

  /** `bootstrap`: the port a socket server is started on, when live updates are on. */
  function Bootstrap(opts: PluginOptions, isDev: bool): (r: Option<Value>)
    ensures r.Some? <==> Truthy(LiveUpdate(opts, isDev))
  {
    if Truthy(LiveUpdate(opts, isDev)) then Some(ServerPort(opts)) else None
  }

  /**
   * `_.set(doc, 'props.' + key, x)` as it shows in the written JSON: an
   * object gains or overwrites the member; an array keeps the property off
   * its elements, so the file does not show it; anything else is replaced
   * by a new object holding only the member.
   */
  function SetMember(v: Value, key: string, x: Value): (r: Value)
    ensures v.Obj? ==> r.Obj? && Own(r, key) == x && forall k :: k != key ==> Own(r, k) == Own(v, k)
    ensures v.Arr? ==> r == v
    ensures !v.Obj? && !v.Arr? ==> r == Obj([Member(key, x)])
  {
    match v
    case Obj(_) => SetField(v, key, x)
    case Arr(_) => v
    case _ => Obj([Member(key, x)])
  }

  /** The document written to the cache file, while it is being built. */
  class CacheDocument {
    /** The split copy writes the objects; the older copy does not. */
    var objects: Option<Value>
    var props: Value
    var pages: seq<Value>

    constructor (objects: Option<Value>, props: Value, pages: seq<Value>)
      ensures this.objects == objects && this.props == props && this.pages == pages
    {
      this.objects := objects;
      this.props := props;
      this.pages := pages;
    }

    /** The cache document before serialisation: `objects` (when present), `props`, `pages`, in that order. */
    function Json(): (r: Value)
      reads this
      ensures r.Obj? && Own(r, "props") == props && Own(r, "pages") == Arr(pages)
      ensures objects.Some? ==> Own(r, "objects") == objects.value
      ensures objects.None? ==> Own(r, "objects") == Undefined
    {
      var head := match objects case Some(o) => [Member("objects", o)] case None => [];
      var ms := head + [Member("props", props)] + [Member("pages", Arr(pages))];
      var init := ms[..|ms| - 1];
      assert init == head + [Member("props", props)];
      assert Lookup(ms, "pages") == Some(Arr(pages));
      assert Lookup(ms, "props") == Lookup(init, "props") == Some(props);
      assert init[..|init| - 1] == head;
      assert Lookup(ms, "objects") == Lookup(init, "objects") == Lookup(head, "objects");
      Obj(ms)
    }

    /** `_.set(transformedData, 'props.' + key, x)`. */
    method SetProp(key: string, x: Value)
      modifies this
      ensures props == SetMember(old(props), key, x)
      ensures objects == old(objects) && pages == old(pages)
    {
      props := SetMember(props, key, x);
    }
  }

  /** The props after the three `_.set` calls of a transform with live updates on. */
  function LiveProps(props: Value, live: Value, port: Value): Value {
    SetMember(SetMember(SetMember(props, "liveUpdate", live), "liveUpdatePort", port),
      "liveUpdateEventName", Str(LiveUpdateEventName))
  }

  /**
   * Unless the props are an array, the live update settings are readable
   * from them afterwards, and an object keeps every other prop as it was.
   */
  lemma LivePropsSpec(props: Value, live: Value, port: Value)
    requires !props.Arr?
    ensures var r := LiveProps(props, live, port);
      r.Obj?
      && Own(r, "liveUpdate") == live
      && Own(r, "liveUpdatePort") == port
      && Own(r, "liveUpdateEventName") == Str("props_changed")
    ensures var r := LiveProps(props, live, port);
      props.Obj? ==> forall k :: k !in {"liveUpdate", "liveUpdatePort", "liveUpdateEventName"} ==> Own(r, k) == Own(props, k)
  {
    var a := SetMember(props, "liveUpdate", live);
    var b := SetMember(a, "liveUpdatePort", port);
    if !props.Obj? {
      assert Keys([Member("liveUpdate", live)]) == ["liveUpdate"];
      assert Own(a, "liveUpdate") == live;
    }
    assert Own(b, "liveUpdate") == live;
  }

  /** `reduceAndTransformData`: the objects (flattened when asked), the common props and the pages. */
  function ReduceAndTransform(ed: Edition, objects: Value, opts: PluginOptions): (r: Result<(Value, Value, seq<Value>), TransformError>)
    ensures r.Success? ==> r.value.1 == ReducePropsMap(opts.commonProps, r.value.0)
    ensures !Truthy(opts.flattenAssetUrls) && r.Success? ==> r.value.0 == objects
  {
    var objs := if Truthy(opts.flattenAssetUrls) then FlattenAssetUrls(objects) else objects;
    match ReducePages(ed, opts.pages, objs)
    case Success(pages) => Success((objs, ReducePropsMap(opts.commonProps, objs), pages))
    case Failure(e) => Failure(e)
  }

  /**
   * `transform` of either copy: the document it writes, or the error that
   * rejects it before anything is written, and whether the change event is
   * emitted.
   */
  method Transform(ed: Edition, objects: Value, opts: PluginOptions, isDev: bool)
    returns (written: Result<CacheDocument, TransformError>, emitted: bool)
    ensures written.Failure? <==> ReduceAndTransform(ed, objects, opts).Failure?
    ensures emitted <==> written.Success? && Truthy(LiveUpdate(opts, isDev))
    ensures written.Success? ==>
      var (objs, props, pages) := ReduceAndTransform(ed, objects, opts).value;
      var doc := written.value;
      fresh(doc)
      && doc.pages == pages
      && doc.objects == (if ed == Lib then Some(objs) else None)
      && doc.props == (if Truthy(LiveUpdate(opts, isDev)) then LiveProps(props, LiveUpdate(opts, isDev), ClientPort(opts)) else props)
  {
    var reduced := ReduceAndTransform(ed, objects, opts);
    if reduced.Failure? {
      return Failure(reduced.error), false;
    }
    var (objs, props, pages) := reduced.value;
    var doc := new CacheDocument(if ed == Lib then Some(objs) else None, props, pages);
    var live := LiveUpdate(opts, isDev);
    if Truthy(live) {
      doc.SetProp("liveUpdate", live);
      doc.SetProp("liveUpdatePort", ClientPort(opts));
      doc.SetProp("liveUpdateEventName", Str(LiveUpdateEventName));
    }
    written := Success(doc);
    emitted := Truthy(live);
  }

  /**
   * Without a separate client port, pages are told the port the socket
   * server of `bootstrap` listens on.
   */
  lemma ClientMeetsServer(opts: PluginOptions, isDev: bool, props: Value)
    requires opts.liveUpdateClientPort.Undefined? && Truthy(LiveUpdate(opts, isDev)) && !props.Arr?
    ensures Bootstrap(opts, isDev) == Some(Own(LiveProps(props, LiveUpdate(opts, isDev), ClientPort(opts)), "liveUpdatePort"))
  {
    LivePropsSpec(props, LiveUpdate(opts, isDev), ClientPort(opts));
  }
}
