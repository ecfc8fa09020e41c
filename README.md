# sourcebit-target-next, modelled in Dafny

This project models the core of `sourcebit-target-next`. That is the Sourcebit target plugin that
turns content objects into the data a Next.js site renders from. On the writing side, `transform`:

- flattens nested asset references to their URLs, if asked;
- reduces the objects to a list of page entries, each with a resolved URL path, and a bag of common props;
- adds the live-update settings to the props;
- writes `{objects, props, pages}` to a JSON cache file.

On the reading side, `SourcebitDataClient`:

- polls for the cache file and parses it, with bounded retries;
- lists the page paths for `getStaticPaths`;
- answers a page request with the page whose path matches, merged with the common props.

The interactive setup finds example values for a model's fields and accumulates the chosen pages
and props.

The repository holds two copies of the plugin: the split files under `lib/`, and the older
single-file `index.js`. They differ in the details listed below. The model covers both, with an
`Edition` parameter (`Lib` or `Legacy`) wherever they differ. Where the code is identical, it is
defined once.

JavaScript values are modelled by `JsValues.Value`. An object is a list of members in insertion order. The
module also gives the lodash primitives the code relies on: truthiness, own properties, `_.get`
on dotted paths, `_.assign`, spread, `_.concat`, and string conversion.

Files:

- `results.dfy`: `Option` and `Result`.
- `text.dfy`: trimming with a character set, `join`/`split` and decimal strings.
- `values.dfy`: the value model.
- `path_template.dfy`: `interpolatePagePath` in both editions.
- `deep_map.dfy`: `mapDeep` and asset flattening.
- `reducers.dfy`: `reducePropsMap` and `reducePages`.
- `cache_writer.dfy`: `transform` and `bootstrap`.
- `data_client.dfy`: `SourcebitDataClient`.
- `setup.dfy`: `getExampleFieldValues` and the setup data.

State changed in place is modelled with classes and methods:

- `CacheWriter.CacheDocument`: the three `_.set` calls on the document being written.
- `DataClient.CmsData`: `_.assign(page, data.props)` on the page found.
- `Setup.PropAnswers`: `answers.__model = model`.

Loops are methods with invariants, each proved equal to a specification function:

- `DataClient.Retry`: the retry loops of `getData`.
- `Reducers.ReducePageItems`: the reduce over function-mode pages.
- `Setup.ExampleFieldValues`: the `reduce`/`forEach` of `getExampleFieldValues`.

Where the two copies or the prose description of the plugin disagree with the code, the model
follows the code:

- **Development mode lists `/` twice.** `getStaticPaths` appends every path again with a trailing
  `/`, except the root, which it appends unchanged. So `/` is listed twice (lib/data-client.js:80),
  not once. See `DataClient.DevPathsSpec`.
- **Common props win.** `getPropsFromCMSDataForPagePath` assigns the common props onto the page
  (lib/data-client.js:96). A common prop therefore replaces a page field of the same name, not the
  other way round. See `DataClient.PropsForSpec`.
- **Leading slashes differ between the copies.** The older copy normalises an interpolated path by
  trimming trailing `/` and adding a leading one only when missing, so `//a` stays `//a`. The split
  copy trims both ends, giving `/a`. See `PathTemplate.LegacyKeepsDoubleSlash` and
  `PathTemplate.NormalisationsAgree`.
- **Failed function-mode paths.** When a `pages` function returns an item whose path fails to
  interpolate, the split copy keeps the item unchanged and the older copy drops it. The split copy
  also throws on a `null` item. See `Reducers.LibPageItem` and `Reducers.LegacyPageItem` for one
  item, `Reducers.LibFunctionModeFails` for the throw, and `Reducers.LegacyFunctionModeSpec` for
  the older copy's whole list: the resolving items, in order, each with its resolved path.
- **Path-less pages in the older copy.** The older `getStaticPaths` does not filter out pages
  without a path. It lists them as `undefined`, and in development also as `"undefined/"`. See
  `DataClient.MissingPathListed`.
- **The JSON read retry.** The older `getData` does not retry the JSON read; the split copy retries
  it three times. See `DataClient.PartialWriteTolerated`.
- **The event name is fixed.** It is always `props_changed`; it is not read from the options.

## Model

| member | source | states |
|---|---|---|
| Text.TrimStartSpec | index.js:157 | lodash trimming removes exactly a leading run of characters from the set and stops at the first character outside it |
| Text.TrimEndSpec | index.js:157 | `_.trimEnd` removes exactly a trailing run of characters from the set and stops at the last character outside it |
| Text.TrimSpec | lib/transform.js:205 | neither end of a `_.trim` result is a character of the set |
| Text.TrimFixedPoint | lib/transform.js:205 | `_.trim` leaves a string unchanged exactly when neither end is in the set |
| Text.TrimEmpty | lib/transform.js:205 | `_.trim` yields the empty string exactly when every character is in the set |
| Text.JoinSplit | lib/data-client.js:91-93 | joining the pieces of a split on a character with that character gives back the string |
| Text.SplitJoin | lib/data-client.js:91-93 | splitting a join of pieces free of the separator gives back the pieces |
| JsValues.Put | lib/transform.js:145 | after assigning a key, the key holds the new value and every other key keeps its value |
| JsValues.AssignAllLookup | lib/data-client.js:96 | after `_.assign(target, source)` the source wins every key it has and the target keeps the others |
| JsValues.AssignAllKeys | lib/transform.js:165-169 | the keys after an assignment are the target's keys and the source's keys |
| JsValues.Get | lib/transform.js:198 | `_.get` uses an own key as it is, and a name without dots is an own-property read |
| JsValues.GetDotted | lib/transform.js:198 | `_.get` on a dotted name the value does not own as a key walks the dot-free segments one property at a time |
| JsValues.GetPathSnoc | lib/transform.js:198 | the walk reads each segment from the value the earlier segments reached |
| JsValues.GetTwoSegments | lib/transform.js:198 | `_.get(v, "a.b")` is property `b` of property `a` of `v`, unless `v` owns the key `a.b` |
| PathTemplate.UntokenizeTokenize | lib/transform.js:197 | the placeholder scan of the template loses nothing: its tokens spell the template again |
| PathTemplate.TokenizeHoles | lib/transform.js:197 | every placeholder found is a non-empty name with no `}` after its first character, as the lazy pattern captures |
| PathTemplate.FieldTextUnslashed | lib/transform.js:198-202 | the text substituted for a field neither starts nor ends with `/` |
| PathTemplate.RenderFails | lib/transform.js:197-203 | substitution fails exactly when some placeholder's field is missing or falsy, and the error names the first one |
| PathTemplate.RenderSucceeds | lib/transform.js:197-203 | a successful substitution replaces each placeholder by its field text and copies literals |
| PathTemplate.ExpansionAppend | lib/transform.js:197-203 | the expansion of two token runs is the concatenation of their expansions |
| PathTemplate.Interpolate | lib/transform.js:196-207 | `interpolatePagePath` of either copy: substitute the placeholders of a string template from the page, then normalise; its properties are stated by the lemmas below |
| PathTemplate.InterpolateOutcome | lib/transform.js:196-207 | a non-string template fails; a string template fails iff a placeholder field is missing; otherwise the result is the normalised expansion |
| PathTemplate.InterpolateShape | index.js:148-164 | an interpolated path starts with `/` and has no trailing `/` unless it is the root; the split copy yields a normal path |
| PathTemplate.NormaliseLibNormal | lib/transform.js:205 | `'/' + _.trim(s, '/')` is always a normal path |
| PathTemplate.NormaliseLegacyShape | index.js:157-161 | the older normalisation gives a leading `/`, no trailing `/` unless root, and the root exactly for all-slash input |
| PathTemplate.NormaliseLibFixedPoints | lib/transform.js:205 | normal paths are exactly the fixed points of the split copy's normalisation, which is idempotent |
| PathTemplate.NormalPathFixed | lib/transform.js:205 | a normal path is left unchanged by the split copy's normalisation |
| PathTemplate.NormalisationsAgree | index.js:157-161 | the two copies normalise alike iff the trailing-trimmed string does not start with `//` |
| PathTemplate.LegacyKeepsDoubleSlash | index.js:157-161 | on `//a` the older copy keeps `//a` while the split copy gives `/a` |
| PathTemplate.SingleField | lib/transform.js:197-203 | `prefix{name}` substitutes to the prefix plus the field text when the field is truthy, else fails naming the field |
| PathTemplate.DefaultTemplate | lib/transform.js:155 | the default template `/{slug}` gives `/` plus the slug text in both copies, or fails when the slug is falsy |
| DeepMap.MapDeep | lib/transform.js:105-127 | the result keeps the shape (keys or length) of what the iteratee returned for the value, and is no larger than the value |
| DeepMap.MapMembersAt | lib/transform.js:117-120 | each member keeps its key and its value is mapped on its own with the key appended to the key path |
| DeepMap.MapItemsAt | lib/transform.js:121-124 | each array element is mapped on its own with its index appended to the key path |
| DeepMap.MapIdentity | lib/transform.js:105-127 | mapping with the identity iteratee returns the value unchanged at every depth |
| DeepMap.FlattenAssetsNonGrowing | lib/transform.js:90-96 | replacing an asset by its `url` never makes a value larger, so the traversal terminates |
| DeepMap.FlattenAssetUrls | lib/transform.js:89-97 | flattening asset URLs never makes the objects larger |
| DeepMap.TopLevelKept | lib/transform.js:91-92 | top-level objects are never replaced, even when they are assets; the list keeps its length and each object its keys |
| DeepMap.NestedAssetFlattened | lib/transform.js:92-94 | below the top level an asset with a string `url` becomes that string |
| DeepMap.NonAssetShapeKept | lib/transform.js:95 | a value that is not an asset keeps its shape |
| Reducers.FirstIndex | lib/transform.js:187 | the index found is the first element that passes, and none is found only when no element passes |
| Reducers.Find | lib/transform.js:187 | `_.find` yields the first passing element, or undefined when none passes |
| Reducers.Filter | lib/transform.js:189 | `_.filter` on the elements; its order, repeats and membership are stated by the three lemmas below |
| Reducers.FilterMembers | lib/transform.js:189 | `_.filter` keeps exactly the elements that pass |
| Reducers.FilterAppend | lib/transform.js:189 | `_.filter` keeps order and repeats: the filter of two runs is the filter of the first followed by the filter of the second |
| Reducers.FilterSingle | lib/transform.js:189 | a single element is kept exactly when it passes |
| Reducers.FoldPropsLookup | lib/transform.js:183-193 | every name of a props map holds the value of its last definition, and no other name appears |
| Reducers.ReducePropsMap | lib/transform.js:178-194 | a declarative props map always yields an object |
| Reducers.EntryFields | lib/transform.js:165-169 | an entry's `path` and `page` are the resolved path and the page unless the spread props bring their own |
| Reducers.EntriesOf | lib/transform.js:157-172 | the inner reduce over one page type's matching objects; stated by the `EntriesOf…` lemmas below |
| Reducers.EntriesOfSpec | lib/transform.js:156-172 | a page type's entries are exactly the entries of its pages whose path resolves, each with its own resolved path |
| Reducers.EntriesOfAppend | lib/transform.js:157-172 | the entries of a page type follow the order of its matching objects: two runs of objects give the entries of the first run, then those of the second |
| Reducers.EntriesOfSingle | lib/transform.js:159-170 | one object gives exactly one entry, with its resolved path, when its path resolves, and none when the interpolation throws |
| Reducers.EntriesOfLength | lib/transform.js:156-172 | a page type yields at most one entry per matching object |
| Reducers.DeclarativePagesSpec | lib/transform.js:151-175 | an entry is produced iff some page type matches its page, resolves its path and gives its props |
| Reducers.DeclarativePages | lib/transform.js:151-175 | the declarative `pages` option: the outer reduce over the page types; stated by the `DeclarativePages…` lemmas |
| Reducers.DeclarativePagesAppend | lib/transform.js:151-175 | page types are processed in order: two runs of page types give the entries of the first run, then those of the second |
| Reducers.DeclarativePagesSingle | lib/transform.js:151-175 | one page type gives the entries of its matching objects, in their order |
| Reducers.DeclarativePathNormal | lib/transform.js:161 | in the split copy every declarative entry whose props bring no `path` carries a normal path |
| Reducers.PageItem | lib/transform.js:135-146 | what one item of a `pages` function adds, in either copy; stated by `LibPageItem` and `LegacyPageItem` |
| Reducers.FunctionModePages | lib/transform.js:130-148 | the reduce over the items of a `pages` function, from `[]`; stated by the loop and the lemmas below |
| Reducers.LegacyKept | index.js:87-100 | the reference for the older copy's reduce: the resolving items in order, each with its resolved path |
| Reducers.ReducePageItems | lib/transform.js:133-148 | the loop over a `pages` function's items computes the reduce's result, including its failure |
| Reducers.FailureSticks | lib/transform.js:133-148 | once an item throws, the whole reduce throws with that error |
| Reducers.LibFunctionModeFails | lib/transform.js:136 | the split copy throws exactly when some item is `null` or `undefined`, and names the first such item |
| Reducers.LibPageItem | lib/transform.js:135-146 | a split-copy item throws iff nullish; without a truthy `path`, or when the path does not resolve, it is kept unchanged (spread if an array); when it resolves, the object is kept once with that path, which is normal, and all other properties unchanged |
| Reducers.LegacyPageItem | index.js:89-97 | an older-copy item is kept iff its path resolves, and then once, as the object with the resolved `path` and all other properties unchanged |
| Reducers.LegacyFunctionModeSpec | index.js:87-100 | the older copy's reduce never throws and yields the items whose path resolves, in their order, each with its resolved path |
| Reducers.LegacyFunctionModePaths | index.js:87-100 | the older copy never throws, keeps at most one entry per item, and every entry has a resolved `path` |
| Reducers.ReducePages | lib/transform.js:129-176 | `reducePages`: the function form or the declarative form of the `pages` option |
| CacheWriter.Bootstrap | lib/transform.js:17-27 | a socket server is started exactly when live updates are on |
| CacheWriter.SetMember | lib/transform.js:40-42 | `_.set` on `props.<key>` sets the key on an object and keeps the others, leaves an array as written, and replaces anything else by a one-member object |
| CacheWriter.CacheDocument.constructor | lib/transform.js:98-102 | the document holds the given objects, props and pages |
| CacheWriter.CacheDocument.Json | lib/transform.js:98-102 | the JSON written has `props`, `pages` and, in the split copy only, `objects` |
| CacheWriter.CacheDocument.SetProp | lib/transform.js:40-42 | setting a prop changes the props as `_.set` does and nothing else |
| CacheWriter.LiveProps | lib/transform.js:39-43 | the three `_.set` calls that add the live-update settings; stated by `LivePropsSpec` |
| CacheWriter.LivePropsSpec | lib/transform.js:39-43 | after the three `_.set` calls the live-update settings are readable from the props, and an object keeps every other prop |
| CacheWriter.ReduceAndTransform | lib/transform.js:88-103 | the props are the reduction of the written objects, and objects are unchanged unless flattening is asked |
| CacheWriter.Transform | lib/transform.js:29-53 | the document written is the reduction with live-update props added iff live updates are on; nothing is written when the reduce throws; the event is emitted iff written with live updates on |
| CacheWriter.ClientMeetsServer | lib/transform.js:17-33 | without a client port, pages are told the port the `bootstrap` server listens on |
| DataClient.AttemptsSpec | lib/data-client.js:23-40 | a retry loop stops at the first attempt that succeeds and gives up only after every allowed attempt failed |
| DataClient.AttemptsSucceed | lib/data-client.js:23-40 | a retry loop succeeds exactly when one of its allowed attempts succeeds |
| DataClient.Retry | lib/data-client.js:19-42 | the loop of self-rescheduling checks computes the retry outcome and the number of retries made |
| DataClient.GetDataOutcome | lib/data-client.js:13-74 | the outcome of `getData` from the check and parse outcomes of each attempt; stated by `GetDataSpec` |
| DataClient.GetData | lib/data-client.js:13-74 | `getData` waits for the file, then parses it, failing as the retry outcomes say |
| DataClient.GetDataSpec | lib/data-client.js:13-74 | `getData` fails as not found iff all eleven checks fail, as not parsed only after every allowed parse failed, and otherwise yields the first document that parsed |
| DataClient.PartialWriteTolerated | lib/data-client.js:46-73 | a file that parses only at the second attempt is read by the split copy and rejected by the older copy |
| DataClient.PagePaths | lib/data-client.js:78 | the page paths `getStaticPaths` lists outside development; stated by `PagePathsSpec` |
| DataClient.PagePathsSpec | lib/data-client.js:78 | the split copy lists the truthy page paths in page order with repeats kept (the filter of the page paths); the older copy lists every page's path in order; both throw only on a null document or page |
| DataClient.StaticPaths | lib/data-client.js:76-83 | `getStaticPaths`, with development mode a parameter; stated by `DevPathsSpec` |
| DataClient.DevPathsSpec | lib/data-client.js:79-81 | in development the list is followed by every path with a trailing `/`, and the root is listed twice |
| DataClient.MissingPathListed | index.js:381-385 | the older copy lists a path-less page as `undefined` and `"undefined/"`; the split copy leaves it out |
| DataClient.RequestPath | lib/data-client.js:91-94 | the path a request asks for: segments joined with `/`, then normalised; stated by the lemmas below |
| DataClient.StringElements | lib/data-client.js:92 | joining string elements writes them as they are |
| DataClient.LegacyNormalFixed | index.js:398-401 | the older request normalisation leaves a normal path unchanged |
| DataClient.TrailingSlashIgnored | lib/data-client.js:94 | both copies ignore one trailing `/` added to a normal path |
| DataClient.RequestPathRoundTrip | lib/data-client.js:91-94 | a normal path requested as itself, without its leading `/`, with a trailing `/`, or as segments asks for that path in both copies |
| DataClient.PropsFor | lib/data-client.js:95-96 | the page found for a path, merged with the common props; stated by `PropsForSpec` and `FoundPageKeepsPath` |
| DataClient.PropsForSpec | lib/data-client.js:95-96 | the answer is an object in which a common prop wins over a page field of the same name and the page's other fields are kept; with no page it holds the common props alone |
| DataClient.FoundPageKeepsPath | lib/data-client.js:95-96 | the answer for an existing page carries that page's path unless the common props have their own `path` |
| DataClient.CmsData.constructor | lib/data-client.js:95-96 | the cached data holds the document's pages and common props |
| DataClient.CmsData.PropsForPagePath | lib/data-client.js:90-97 | the first page with the requested path is updated in place with the common props and returned; otherwise a new object with the common props is returned and the pages are unchanged |
| DataClient.GetStaticPropsForPageAtPath | lib/data-client.js:85-88 | a page request fails as `getData` does or on a null document, and otherwise answers from the data read |
| DataClient.ListedPathsResolve | lib/data-client.js:76-97 | every normal path listed for a page, in any request form, finds a page with that path |
| Setup.ExampleShape | lib/setup.js:20-28 | an example is a non-empty start of the trimmed string form, at most `maxLength` long, not starting with whitespace |
| Setup.Pending | lib/setup.js:18 | the pending names are exactly the field names that have no example yet |
| Setup.FillAt | lib/setup.js:19-29 | a pending name with a usable value takes its example; every other entry stays as it was |
| Setup.Examples | lib/setup.js:5-33 | the reduce of `getExampleFieldValues` over the objects; stated by the lemmas below |
| Setup.ExampleFieldValues | lib/setup.js:5-33 | the nested loops compute the reduce over the objects, including where it throws |
| Setup.ExamplesFailureSticks | lib/setup.js:6-7 | once the reduce throws, later objects do not matter |
| Setup.ExamplesFail | lib/setup.js:7-13 | the reduce throws exactly when an object is null, or the model is null and some object has truthy metadata |
| Setup.ExamplesFirstWins | lib/setup.js:17-29 | the example stored for a field is the one offered by the earliest object of the model; a field has one iff some object offers it |
| Setup.FirstExampleOffered | lib/setup.js:8-28 | the first example comes from one of the objects |
| Setup.StoredExamples | lib/setup.js:8-28 | every stored example belongs to a listed field, comes from an object of the model, and is non-empty, at most `maxLength` long and starts with no whitespace |
| Setup.NoFieldNamesNoExamples | lib/setup.js:15 | a model without an array of field names gets no examples |
| Setup.DefaultPagePath | lib/setup.js:76 | the default page path offered for a model; stated by `DefaultPagePathRenders` |
| Setup.DefaultPagePathRenders | lib/setup.js:76 | with a slug field, the default page path renders as the model path followed by the slug, or fails when the slug is falsy |
| Setup.PropAnswers.constructor | lib/setup.js:91-108 | the answers hold `isMultiple` and `propName` |
| Setup.PropAnswers.SetModel | lib/setup.js:110 | the answers gain `__model` in place and keep every other answer |
| Setup.SetupForProp | lib/setup.js:110-115 | the answers gain the model and are appended to the common props, leaving the pages alone |
| Setup.PropEntryFields | lib/setup.js:110-114 | a prop entry carries its model and keeps the given answers |
| Setup.SetupForPage | lib/setup.js:80-87 | `getSetupForPage` appends one page entry; stated by `SetupForPagesSpec` |
| Setup.SetupForPagesSpec | lib/setup.js:80-87 | the chained page setups add one entry per page model in order, after those already there, and leave the common props alone |

## Left out

- File system, sockets and the event emitter are not modelled:
  - writing and removing the cache file;
  - the socket.io server of `startStaticPropsWatcher` (lib/transform.js:55-86, index.js:21-41) and its hello/broadcast exchange;
  - the in-process event emitter.
  `CacheWriter.Transform` returns the document it would write and whether it would emit.
- The `cacheFilePath` option and the default cache path are not modelled, because they only name the file.
- Retry delays (500 ms and 5 ms) and the asynchronous scheduling of retries are not modelled. Each check and parse outcome is a parameter numbered by attempt.
- An fs error from the older copy's single `readJson` is reported as `CacheFileNotParsed(0)`.
- `getOptionsFromSetup` (index.js:166-216) is not modelled, because it builds JavaScript source text and compiles it at run time.
- The prompts of `getSetup` and lib/setup.js are not modelled; their answers are parameters. This includes the model filter and choice lists of index.js:218-292 and the `slugify`-decorated choices of lib/setup.js:46-62.
- User functions for `pages` and `commonProps` are taken as total functions of the objects. A function that throws is not modelled, nor is the `slugify` helper passed to it.
- lodash iteratee shorthands for page-type and prop predicates are not modelled; each is given as a predicate on values.
- A `null` or missing page-type or prop definition is not modelled: definitions are typed records, so the `TypeError` JavaScript throws on reading its `predicate` (lib/transform.js:153, lib/transform.js:187-189) cannot arise.
- JSON serialisation is not modelled: the cache document is the value before `JSON.stringify`, which drops `undefined` members and writes `undefined` array elements as `null`.
- Numbers are integers: floating point, `NaN` and `-0` are not modelled.
- Strings are sequences of characters. `substring(0, 60)` counts UTF-16 code units in JavaScript but characters here.
- `_.get` with bracket paths, and properties inherited from `Object.prototype`, are not modelled. For example, a field named `constructor` never gets an example in JavaScript, but can here.
- Objects keep their keys in insertion order. JavaScript enumerates integer-like keys first, in numeric order, so spreading a string or an array into an entry lists `"0"`, `"1"`, … before `path` and `page` in the JSON written, while the model lists them after.
- A string or an array has no `length` property here, and a string has no index properties. So `_.get(x, "items.length")` and a placeholder such as `{title.length}` give undefined in the model where JavaScript gives a number or a character.
- Setup.StrictEquals: a metadata property holding an object or array is taken to be never `===` to the model's. The model does not track object identity.
- Setup.ExampleFieldValues: `objects` is taken to be an array; a non-array `objects` makes `reduce` throw in JavaScript.
- DeepMap.MapDeep: requires an iteratee that never makes a value larger. JavaScript does not require this; the only iteratee the plugin passes satisfies it (`DeepMap.FlattenAssetsNonGrowing`).
- Reducers.ReducePageItems: `_.assign(item, { path })` updates the item objects returned by the `pages` function in place. The model builds a new value, so aliasing between those items and the content objects is not captured.
- DataClient.CmsData.PropsForPagePath: the page is updated in place in the cached list. Aliasing between that page and other parts of the parsed document is not captured.

## Findings

None. Where the code departs from the plugin's prose description, the model follows the code; those cases are listed at the top.
