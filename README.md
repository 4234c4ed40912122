# Blazored LocalStorage: the decision layer, in Dafny

`LocalStorageService` gives a Blazor application the browser's `localStorage`.
Nearly every operation hands off to JavaScript interop and to
`System.Text.Json`. The service still decides a few things itself, and this
project models those decisions over an abstract key/value map:

- **Guards.** A null or empty key is rejected with `ArgumentNullException`
  before the store is touched. A synchronous call made without an in-process
  runtime (`IJSInProcessRuntime`) fails with `InvalidOperationException`. The
  key is checked first.
- **The `SetItem` pipeline.** The service looks up the old value and raises
  `Changing`. If a subscriber cancelled, it returns without writing. Otherwise
  a string passes unchanged and anything else is serialised. The text is
  transformed and written. Then `Changed` is raised with the same key, the
  same old value and the original data.
- **The read-side typing heuristic.** The stored text is untransformed first.
  Null or white space gives `default(T)`. Braced or double-quoted text, or any
  `T` other than `string`, goes to the deserialiser. Anything else comes back
  as the raw string.
- **The two old-value lookups.** The synchronous lookup catches a decode
  failure and falls back to the raw text. The asynchronous one has no catch.
- **The transform hook.** `IDataTransformer` is a record of four functions
  with its contract "untransform reverses transform". `DataTransformer` is the
  identity.

Modules: `Wrappers` (results), `DotNetString` (null strings, white space,
`StartsWith`/`EndsWith`), `DataTransformer` (the hook and its identity
implementation), `LocalStorage` (values, codec, heuristic functions and the
`LocalStorageService` class) and `LocalStorageProperties` (round trips and
sync/async agreement).

How things are represented:

- `store: map<string, string>` stands for `localStorage`. `Lookup` is
  `localStorage.getItem`: a missing key reads as null. `StoredForm` is what
  `localStorage.setItem` keeps: a null value is stored as the text `"null"`,
  as JavaScript does, and any other string as it is.
- The serialiser and deserialiser are function-valued fields of `Codec` and
  are left uninterpreted. The serialiser is total. Every failure of the
  deserialiser is the one error `JsonFailure`. A round trip through them
  appears only as an explicit hypothesis of a lemma.
- A value is `Null`, `Text(s)` or an opaque `Object(handle)`. The type
  argument `T` is `StringType` or `OtherType(name, zero)`, where `zero` is
  `default(T)`.
- The `Changing` subscribers are one function from the event arguments to the
  final `Cancel` flag. Raised events are appended to `changingRaised` and
  `changedRaised`.
- Each async method is its sync counterpart without the runtime check, and it
  calls the hook's asynchronous twins. The one other difference is the
  old-value lookup. `GetItemInternalAsync` has no catch around the
  deserialiser, so `RaiseOnChangingAsync` and `SetItemAsync` can fail with
  `JsonFailure` where their synchronous counterparts cannot (see below).

Some round trips a caller might expect do not hold of the code. The lemmas
show where:

- Empty and white-space strings do not survive `SetItem` then
  `GetItem<string>`. They read back as null (`WhiteSpaceTextReadsDefault`).
- A JSON-shaped string is stored verbatim but read back through the
  deserialiser. So `"{abc}"` makes `GetItem<string>` throw
  (`ShapedTextIsDeserialised`).
- A null `string` is serialised, so it reads back as the text `"null"`
  (`NullStringReadsBackAsText`).
- The old-value lookup is lenient only on the synchronous path.
  `SetItemAsync` throws `JsonException` when the old stored text looks like
  JSON but does not decode, and then nothing is raised or written
  (`MalformedOldValue`, `LocalStorage.LocalStorageService.SetItemAsync`).
- A transformer that reverses its transform but returns null for some string
  loses that string. `localStorage` stores the text "null" in its place, and
  that text is what is read back and untransformed. The round-trip lemmas
  therefore also assume the transformer never turns a string into null.

## Model

| member | source | states |
|---|---|---|
| `DataTransformer.Transform` | src/Blazored.LocalStorage/DataTransformer.cs:10-13 | returns its argument, so `Untransform` gives back what was transformed |
| `DataTransformer.TransformAsync` | src/Blazored.LocalStorage/DataTransformer.cs:15-18 | completes with what `Transform` returns |
| `DataTransformer.Untransform` | src/Blazored.LocalStorage/DataTransformer.cs:20-23 | returns its argument: null for null, the same text otherwise |
| `DataTransformer.UntransformAsync` | src/Blazored.LocalStorage/DataTransformer.cs:25-28 | completes with what `Untransform` returns |
| `DataTransformer.IdentityOnEveryString` | src/Blazored.LocalStorage/DataTransformer.cs:10-23 | `Transform` and `Untransform` return their argument, null included |
| `DataTransformer.AsyncTwinsAgree` | src/Blazored.LocalStorage/DataTransformer.cs:15-28 | `TransformAsync`/`UntransformAsync` complete with what `Transform`/`Untransform` return |
| `DataTransformer.UntransformReversesTransform` | src/Blazored.LocalStorage/DataTransformer.cs:10-28 | `Untransform(Transform(s)) == s` on both call paths |
| `DataTransformer.Default` | src/Blazored.LocalStorage/IDataTransformer.cs:13-29 | the default hook meets the interface's "reverses an original transformation" contract, keeps its async twins equal to the sync members, maps non-null to non-null and untransforms every string to itself |
| `DotNetString.AllWhiteSpace` | src/Blazored.LocalStorage/LocalStorageService.cs:58 | the white-space scan is true exactly when every character is white space |
| `LocalStorage.Deserialize` | src/Blazored.LocalStorage/LocalStorageService.cs:65 | succeeds exactly when the deserialiser accepts the text, with the value it gives; every deserialiser failure is modelled as one `JsonFailure` |
| `LocalStorage.Lookup` | src/Blazored.LocalStorage/LocalStorageService.cs:55 | `localStorage.getItem` gives the stored text for a present key and null exactly when the key is missing (the same call at lines 135, 161, 243 and 268) |
| `LocalStorage.LooksLikeJson` | src/Blazored.LocalStorage/LocalStorageService.cs:61-62 | true exactly when the text is non-empty and its first and last characters are `{` and `}` or both `"`; a lone `"` counts (the same test at lines 141-142, 249-250 and 274-275) |
| `LocalStorage.Encode` | src/Blazored.LocalStorage/LocalStorageService.cs:35-45 | a non-null string is transformed unchanged; anything else, null included, is serialised first, then transformed |
| `LocalStorage.ReadAs` | src/Blazored.LocalStorage/LocalStorageService.cs:58-70 | null or white space gives `default(T)`; shaped text or a non-string `T` goes to the deserialiser; otherwise the raw text; it can fail only with a decode error on non-blank text |
| `LocalStorage.LenientOldValue` | src/Blazored.LocalStorage/LocalStorageService.cs:271-290 | null or white space gives null; unshaped text is returned raw; shaped text is the decoded object, or the raw text when decoding fails |
| `LocalStorage.StrictOldValue` | src/Blazored.LocalStorage/LocalStorageService.cs:246-257 | fails exactly when non-blank shaped text does not decode as `object`; otherwise null for blank text, the raw text for unshaped text, and the deserialiser's result at `object` for shaped text |
| `LocalStorage.LocalStorageService.constructor` | src/Blazored.LocalStorage/LocalStorageService.cs:17-23 | the service starts with the given store, runtime capability, codec options, transformer and subscribers, and no events raised |
| `LocalStorage.LocalStorageService.ChangingEvent` | src/Blazored.LocalStorage/LocalStorageService.cs:226-233 | the subscribers see the key, the old value and the new data with `Cancel` false and can change only `Cancel`; the event keeps their final decision (the same invocation at lines 212-219) |
| `LocalStorage.LocalStorageService.GetItem` | src/Blazored.LocalStorage/LocalStorageService.cs:127-151 | a null or empty key fails first, then a missing runtime; otherwise the typing heuristic applied to the untransformed stored value |
| `LocalStorage.LocalStorageService.GetItemAsync` | src/Blazored.LocalStorage/LocalStorageService.cs:50-71 | a null or empty key fails; otherwise the heuristic applied to the asynchronously untransformed stored value |
| `LocalStorage.LocalStorageService.GetItemAsString` | src/Blazored.LocalStorage/LocalStorageService.cs:153-164 | the two guards in order, then the untransformed stored text with no JSON interpretation |
| `LocalStorage.LocalStorageService.GetItemAsStringAsync` | src/Blazored.LocalStorage/LocalStorageService.cs:73-81 | the key guard, then the asynchronously untransformed stored text |
| `LocalStorage.LocalStorageService.GetItemInternal` | src/Blazored.LocalStorage/LocalStorageService.cs:260-291 | fails exactly on the two guards, never on a decode error; otherwise the lenient old value |
| `LocalStorage.LocalStorageService.GetItemInternalAsync` | src/Blazored.LocalStorage/LocalStorageService.cs:238-258 | the key guard, then the strict old value, whose decode error propagates |
| `LocalStorage.LocalStorageService.RaiseOnChangingSync` | src/Blazored.LocalStorage/LocalStorageService.cs:224-236 | the event carries the key, the lenient old value and the new data; `Cancel` is the subscribers' decision; the event is recorded once |
| `LocalStorage.LocalStorageService.RaiseOnChangingAsync` | src/Blazored.LocalStorage/LocalStorageService.cs:210-222 | fails, raising nothing, exactly when the strict lookup fails; otherwise as the sync variant with the strict old value |
| `LocalStorage.LocalStorageService.RaiseOnChanged` | src/Blazored.LocalStorage/LocalStorageService.cs:294-304 | one `Changed` event with the given key, old value and new data is recorded |
| `LocalStorage.LocalStorageService.SetItem` | src/Blazored.LocalStorage/LocalStorageService.cs:99-125 | key guard, then runtime guard, each leaving store and events untouched; one `Changing`; on cancel the store is unchanged and no `Changed`; otherwise exactly the one key gets the encoded data and `Changed` carries the key, the same old value and the original data |
| `LocalStorage.LocalStorageService.SetItemAsync` | src/Blazored.LocalStorage/LocalStorageService.cs:25-48 | key guard; a failing strict old-value lookup aborts with `JsonFailure` (the code's `JsonException`) before any event or write; otherwise as `SetItem` with the asynchronous transform |
| `LocalStorage.LocalStorageService.RemoveItem` | src/Blazored.LocalStorage/LocalStorageService.cs:166-175 | the two guards in order, store untouched; otherwise the key is removed and every other entry kept |
| `LocalStorage.LocalStorageService.RemoveItemAsync` | src/Blazored.LocalStorage/LocalStorageService.cs:83-89 | the key guard; otherwise the key is removed and every other entry kept |
| `LocalStorage.LocalStorageService.Clear` | src/Blazored.LocalStorage/LocalStorageService.cs:177-183 | fails with the store untouched when there is no in-process runtime; otherwise the store is empty |
| `LocalStorage.LocalStorageService.ClearAsync` | src/Blazored.LocalStorage/LocalStorageService.cs:91 | the store is empty |
| `LocalStorageProperties.ReadBackIsWrittenText` | src/Blazored.LocalStorage/LocalStorageService.cs:112-136 | after an uncancelled write, for a hook that reverses its transform and never turns a string into null, the untransformed text read back is the string written, or the serialiser's output for a non-string |
| `LocalStorageProperties.SetThenGetAsString` | src/Blazored.LocalStorage/LocalStorageService.cs:153-164 | after an uncancelled `SetItem(k, s)` for a non-null string, `GetItemAsString(k)` returns `s`, for a hook that reverses its transform and never turns a string into null |
| `LocalStorageProperties.SetThenGetAsStringDefault` | src/Blazored.LocalStorage/DataTransformer.cs:10-23 | the same round trip with the default identity transformer |
| `LocalStorageProperties.PlainTextRoundTrip` | src/Blazored.LocalStorage/LocalStorageService.cs:138-150 | a string that is neither white space nor JSON-shaped comes back unchanged from `GetItem<string>` |
| `LocalStorageProperties.ValueRoundTrip` | src/Blazored.LocalStorage/LocalStorageService.cs:138-145 | a non-string value whose serialised text is not blank (true of any JSON serialiser), read as a non-string `T`, decodes exactly when the deserialiser accepts the serialiser's text, and comes back equal whenever the codec round-trips it |
| `LocalStorageProperties.WhiteSpaceTextReadsDefault` | src/Blazored.LocalStorage/LocalStorageService.cs:138-139 | an empty or white-space string reads back as null |
| `LocalStorageProperties.ShapedTextIsDeserialised` | src/Blazored.LocalStorage/LocalStorageService.cs:141-145 | a JSON-shaped string reads back through the deserialiser and fails when the deserialiser rejects it |
| `LocalStorageProperties.NullStringReadsBackAsText` | src/Blazored.LocalStorage/LocalStorageService.cs:112-121 | a null string is serialised, so with a serialiser writing `null` it reads back as the text "null" |
| `LocalStorageProperties.StrictAgreesWithLenient` | src/Blazored.LocalStorage/LocalStorageService.cs:246-290 | where the strict lookup succeeds it equals the lenient one; where it fails the lenient one is the raw text |
| `LocalStorageProperties.MalformedOldValue` | src/Blazored.LocalStorage/LocalStorageService.cs:274-285 | for shaped old text that does not decode, the sync lookup gives the raw text while the async lookup fails with `JsonFailure` (the code's `JsonException`) |
| `LocalStorageProperties.SyncAsyncSetAgree` | src/Blazored.LocalStorage/LocalStorageService.cs:35-45 | with coherent twins and a successful async lookup, both paths see the same old value, so they raise the same `Changing` event and write the same entry |
| `LocalStorageProperties.SetThenRead` | src/Blazored.LocalStorage/LocalStorageService.cs:99-164 | on a live service, an uncancelled `SetItem(k, s)` of a plain string followed by `GetItem<string>(k)` and `GetItemAsString(k)` gives `s` back from both; a cancelled one leaves the store unchanged |
| `LocalStorageProperties.SetThenReadAsString` | src/Blazored.LocalStorage/LocalStorageService.cs:99-164 | on a live service, for every string `s` whatever its shape, an uncancelled `SetItem(k, s)` followed by `GetItemAsString(k)` gives `s`; a cancelled one leaves the store unchanged |
| `LocalStorageProperties.SyncAsyncSameEffect` | src/Blazored.LocalStorage/LocalStorageService.cs:25-48 | `SetItem` on one service and `SetItemAsync` on another in the same state, with coherent twins and a successful async lookup, both pass and end with the same store and the same `Changing` and `Changed` logs (compare lines 99-125) |
| `LocalStorageProperties.SyncAsyncGetAgree` | src/Blazored.LocalStorage/LocalStorageService.cs:50-71 | with coherent twins and an in-process runtime, `GetItemAsync` and `GetItemAsStringAsync` equal their sync counterparts |
| `LocalStorageProperties.MissingKeyReadsDefault` | src/Blazored.LocalStorage/LocalStorageService.cs:135-139 | with the default transformer, a missing key reads as `default(T)` on both paths, never as an error |

## Left out

- `Length`, `LengthAsync`, `Key`, `KeyAsync`, `ContainKey` and `ContainKeyAsync` are not modelled. They are single interop calls, and their results (`localStorage.length` via `eval`, key ordering, `hasOwnProperty`) are defined by the browser.
- JavaScript interop marshalling and host errors such as an exceeded quota are not modelled. The store is a map, and a write always succeeds.
- `System.Text.Json` and `JsonSerializerOptions` are uninterpreted total functions. Serialising never fails in the model, and no property of JSON itself is assumed.
- Task and ValueTask scheduling is not modelled. Each async method runs to completion as one step.
- Event multicast is reduced to one decision function, and subscriber exceptions are not modelled. So is a subscriber that edits the arguments other than `Cancel`.
- `StartsWith` and `EndsWith` compare character by character. .NET's default culture-sensitive comparison, which can skip ignorable characters, is not modelled.
- Dependency-injection wiring is not modelled. The constructor takes the transformer, the codec and the runtime capability as plain parameters.
- `LocalStorage.LocalStorageService.SetItem`: the serialiser and the hook are total. So a throw from either after `Changing` is raised is not modelled. In the code that leaves the event recorded, nothing written and no `Changed`.
- `LocalStorage.LocalStorageService.SetItemAsync`: the serialiser and the hook are total. So a throw from either after `Changing` is raised is not modelled. In the code that leaves the event recorded, nothing written and no `Changed`.
- `LocalStorage.LocalStorageService.RaiseOnChangingSync`: requires a non-empty key and an in-process runtime, because its only caller, `SetItem`, has already checked both. The guard inside `GetItemInternal` is modelled in that function.
- `LocalStorage.LocalStorageService.RaiseOnChangingAsync`: requires a non-empty key, because its only caller, `SetItemAsync`, has already checked it.
- `LocalStorage.LocalStorageService.GetItemInternalAsync`: modelled only at `T = object`, its one instantiation. At other types the final `(T)(object)` cast could throw, and that is not modelled.
