/** What a write followed by a read gives back, how the two old-value
    lookups relate, and when the synchronous and asynchronous paths agree. */
module LocalStorageProperties {
  import opened Wrappers
  import opened DotNetString
  import DataTransformer
  import opened LocalStorage

  /** The text a read gets back from `key` after `SetItem(key, data)` wrote
      the store: the stored string, untransformed. */
  function ReadBack(store: map<string, string>, key: string, data: Value, codec: Codec,
                    hook: DataTransformer.Hook): NString
  {
    hook.untransform(Lookup(store[key := Encode(data, codec, hook.transform)], key))
  }

  /** After an uncancelled write, through a hook that reverses its transform
      and never turns a string into null, the text read back is the string
      written, or the serialiser's output for a non-string value. */
  lemma ReadBackIsWrittenText(store: map<string, string>, key: string,
                              data: Value, codec: Codec, hook: DataTransformer.Hook)
    requires hook.Reverses() && hook.PreservesNonNull()
    ensures ReadBack(store, key, data, codec, hook)
              == Some(if data.Text? then data.s else codec.serialize(data))
  {
    var text := if data.Text? then data.s else codec.serialize(data);
    var transformed := hook.transform(Some(text));
    assert hook.untransform(transformed) == Some(text);
    assert transformed.Some?;
    assert Lookup(store[key := StoredForm(transformed)], key) == Some(StoredForm(transformed));
    assert StoredForm(transformed) == transformed.value;
  }

  /** `GetItemAsString` after an uncancelled `SetItem(key, s)` for a non-null
      string `s` returns `s`, for a hook that reverses its transform and never
      turns a string into null. */
  lemma SetThenGetAsString(store: map<string, string>, key: string, s: string, codec: Codec,
                           hook: DataTransformer.Hook)
    requires hook.Reverses() && hook.PreservesNonNull()
    ensures ReadBack(store, key, Text(s), codec, hook) == Some(s)
  {
    ReadBackIsWrittenText(store, key, Text(s), codec, hook);
  }

  /** The same for the default `DataTransformer`. */
  lemma SetThenGetAsStringDefault(store: map<string, string>, key: string, s: string, codec: Codec)
    ensures ReadBack(store, key, Text(s), codec, DataTransformer.Default()) == Some(s)
  {
    SetThenGetAsString(store, key, s, codec, DataTransformer.Default());
  }

  /** A string that is neither white space nor JSON-shaped makes the round
      trip through `SetItem` and `GetItem<string>` unchanged. */
  lemma PlainTextRoundTrip(store: map<string, string>, key: string, s: string, codec: Codec,
                           hook: DataTransformer.Hook)
    requires hook.Reverses() && hook.PreservesNonNull()
    requires !AllWhiteSpace(s) && !LooksLikeJson(s)
    ensures ReadAs(ReadBack(store, key, Text(s), codec, hook), StringType, codec) == Success(Text(s))
  {
    ReadBackIsWrittenText(store, key, Text(s), codec, hook);
  }

  /** A non-string value makes the round trip through `SetItem` and
      `GetItem<T>` exactly when the serialiser and deserialiser do: the
      library adds no loss of its own. */
  lemma ValueRoundTrip(store: map<string, string>, key: string, v: Value, t: TypeArg,
                       codec: Codec, hook: DataTransformer.Hook)
    requires hook.Reverses() && hook.PreservesNonNull()
    requires !v.Text? && t != StringType
    requires !AllWhiteSpace(codec.serialize(v))
    ensures ReadAs(ReadBack(store, key, v, codec, hook), t, codec).Success? <==>
              codec.deserialize(codec.serialize(v), t).Some?
    ensures codec.deserialize(codec.serialize(v), t) == Some(v) ==>
              ReadAs(ReadBack(store, key, v, codec, hook), t, codec) == Success(v)
  {
    ReadBackIsWrittenText(store, key, v, codec, hook);
    var text := codec.serialize(v);
    assert ReadBack(store, key, v, codec, hook) == Some(text);
    assert ReadAs(Some(text), t, codec) == Deserialize(codec, text, t);
  }

  /** An empty or white-space string does not survive the round trip:
      `GetItem<string>` gives `default`, that is null. */
  lemma WhiteSpaceTextReadsDefault(store: map<string, string>, key: string, s: string,
                                   codec: Codec, hook: DataTransformer.Hook)
    requires hook.Reverses() && hook.PreservesNonNull()
    requires AllWhiteSpace(s)
    ensures ReadAs(ReadBack(store, key, Text(s), codec, hook), StringType, codec) == Success(Null)
  {
    ReadBackIsWrittenText(store, key, Text(s), codec, hook);
  }

  /** A JSON-shaped string is stored verbatim but read back through the
      deserialiser, so `GetItem<string>` fails when the deserialiser rejects
      the text (for instance "{abc}"). */
  lemma ShapedTextIsDeserialised(store: map<string, string>, key: string, s: string,
                                 codec: Codec, hook: DataTransformer.Hook)
    requires hook.Reverses() && hook.PreservesNonNull()
    requires LooksLikeJson(s)
    ensures ReadAs(ReadBack(store, key, Text(s), codec, hook), StringType, codec)
              == Deserialize(codec, s, StringType)
    ensures codec.deserialize(s, StringType).None? ==>
              ReadAs(ReadBack(store, key, Text(s), codec, hook), StringType, codec) == Failure(JsonFailure)
  {
    ReadBackIsWrittenText(store, key, Text(s), codec, hook);
    ShapedIsNotWhiteSpace(s);
  }

  /** A null `string` takes the serialise branch, so `GetItem<string>` reads
      back the serialiser's text for null rather than null itself. */
  lemma NullStringReadsBackAsText(store: map<string, string>, key: string, codec: Codec,
                                  hook: DataTransformer.Hook)
    requires hook.Reverses() && hook.PreservesNonNull()
    requires codec.serialize(Null) == "null"
    ensures ReadAs(ReadBack(store, key, Null, codec, hook), StringType, codec) == Success(Text("null"))
  {
    ReadBackIsWrittenText(store, key, Null, codec, hook);
    NullLiteralIsPlain();
  }

  /** The text `System.Text.Json` writes for null is plain text. */
  lemma NullLiteralIsPlain()
    ensures !AllWhiteSpace("null") && !LooksLikeJson("null")
  {
    LeadingNonWhiteSpace("null");
  }

  /** Text whose first character is not white space is not white space. */
  lemma LeadingNonWhiteSpace(s: string)
    requires |s| > 0 && !IsWhiteSpace(s[0])
    ensures !AllWhiteSpace(s)
  {
  }

  /** JSON-shaped text is never white space, since it starts with `{` or `"`. */
  lemma ShapedIsNotWhiteSpace(s: string)
    requires LooksLikeJson(s)
    ensures !AllWhiteSpace(s)
  {
    LeadingNonWhiteSpace(s);
  }

  /** Where the strict old-value lookup succeeds it agrees with the lenient
      one; where it fails, the lenient one gives the raw text instead. */
  lemma StrictAgreesWithLenient(data: NString, codec: Codec)
    ensures StrictOldValue(data, codec).Success? ==>
              StrictOldValue(data, codec).value == LenientOldValue(data, codec)
    ensures StrictOldValue(data, codec).Failure? ==>
              data.Some? && LenientOldValue(data, codec) == Text(data.value)
  {
  }

  /** Old text that looks like JSON but does not decode: the synchronous
      lookup falls back to the raw text, so `SetItem` proceeds, while the
      asynchronous lookup fails, so `SetItemAsync` throws before writing. */
  lemma MalformedOldValue(svc: LocalStorageService, key: string)
    requires svc.inProcess && key != "" && svc.hook.Coherent()
    requires var prior := svc.hook.untransform(Lookup(svc.store, key));
             prior.Some? && LooksLikeJson(prior.value) && svc.codec.deserialize(prior.value, ObjectType).None?
    ensures svc.GetItemInternal(Some(key)) == Success(Text(svc.hook.untransform(Lookup(svc.store, key)).value))
    ensures svc.GetItemInternalAsync(Some(key)) == Failure(JsonFailure)
  {
    var prior := svc.hook.untransform(Lookup(svc.store, key));
    ShapedIsNotWhiteSpace(prior.value);
    assert svc.hook.untransformAsync(Lookup(svc.store, key)) == prior;
  }

  /** With twins that agree, `SetItem` and `SetItemAsync` raise the same
      `Changing` event and write the same entry whenever the asynchronous
      old-value lookup succeeds. */
  lemma SyncAsyncSetAgree(svc: LocalStorageService, key: string, data: Value)
    requires svc.inProcess && key != "" && svc.hook.Coherent()
    requires svc.GetItemInternalAsync(Some(key)).Success?
    ensures svc.GetItemInternalAsync(Some(key)) == svc.GetItemInternal(Some(key))
    ensures Encode(data, svc.codec, svc.hook.transformAsync) == Encode(data, svc.codec, svc.hook.transform)
  {
    var stored := Lookup(svc.store, key);
    assert svc.hook.untransformAsync(stored) == svc.hook.untransform(stored);
    StrictAgreesWithLenient(svc.hook.untransform(stored), svc.codec);
    var text := if data.Text? then data.s else svc.codec.serialize(data);
    assert svc.hook.transformAsync(Some(text)) == svc.hook.transform(Some(text));
  }

  /** With twins that agree, the asynchronous reads give what the
      synchronous ones give wherever the runtime allows synchronous calls. */
  lemma SyncAsyncGetAgree(svc: LocalStorageService, key: NString, t: TypeArg)
    requires svc.inProcess && svc.hook.Coherent()
    ensures svc.GetItemAsync(key, t) == svc.GetItem(key, t)
    ensures svc.GetItemAsStringAsync(key) == svc.GetItemAsString(key)
  {
    if !IsNullOrEmpty(key) {
      var stored := Lookup(svc.store, key.value);
      assert svc.hook.untransformAsync(stored) == svc.hook.untransform(stored);
    }
  }

  /** With the default transformer, reading a missing key gives `default(T)`,
      never an error. */
  lemma MissingKeyReadsDefault(svc: LocalStorageService, key: string, t: TypeArg)
    requires svc.inProcess && key != "" && key !in svc.store
    requires svc.hook == DataTransformer.Default()
    ensures svc.GetItem(Some(key), t) == Success(DefaultOf(t))
    ensures svc.GetItemAsync(Some(key), t) == Success(DefaultOf(t))
  {
  }

  /** A caller of the class itself: after an uncancelled synchronous
      `SetItem(key, s)` of a plain string, `GetItem<string>` and
      `GetItemAsString` both give `s` back; a cancelled one leaves the store
      as it was. */
  method SetThenRead(svc: LocalStorageService, key: string, s: string) returns (cancelled: bool)
    requires svc.inProcess && key != ""
    requires svc.hook.Reverses() && svc.hook.PreservesNonNull()
    requires !AllWhiteSpace(s) && !LooksLikeJson(s)
    modifies svc
    ensures cancelled ==> svc.store == old(svc.store)
    ensures !cancelled ==> svc.GetItem(Some(key), StringType) == Success(Text(s))
    ensures !cancelled ==> svc.GetItemAsString(Some(key)) == Success(Some(s))
  {
    ghost var before := svc.store;
    ghost var back := ReadBack(before, key, Text(s), svc.codec, svc.hook);
    PlainTextRoundTrip(before, key, s, svc.codec, svc.hook);
    SetThenGetAsString(before, key, s, svc.codec, svc.hook);
    cancelled := svc.ChangingEvent(key, svc.GetItemInternal(Some(key)).value, Text(s)).cancel;
    var _ := svc.SetItem(Some(key), Text(s));
    if !cancelled {
      assert svc.store == before[key := Encode(Text(s), svc.codec, svc.hook.transform)];
      assert svc.hook.untransform(Lookup(svc.store, key)) == back;
    }
  }

  /** The same on the class for every string, with no condition on its
      shape: after an uncancelled synchronous `SetItem(key, s)`,
      `GetItemAsString` gives `s` back. */
  method SetThenReadAsString(svc: LocalStorageService, key: string, s: string) returns (cancelled: bool)
    requires svc.inProcess && key != ""
    requires svc.hook.Reverses() && svc.hook.PreservesNonNull()
    modifies svc
    ensures cancelled ==> svc.store == old(svc.store)
    ensures !cancelled ==> svc.GetItemAsString(Some(key)) == Success(Some(s))
  {
    ghost var before := svc.store;
    SetThenGetAsString(before, key, s, svc.codec, svc.hook);
    cancelled := svc.ChangingEvent(key, svc.GetItemInternal(Some(key)).value, Text(s)).cancel;
    var _ := svc.SetItem(Some(key), Text(s));
    if !cancelled {
      assert svc.store == before[key := Encode(Text(s), svc.codec, svc.hook.transform)];
    }
  }

  /** Two services in the same state, with twins that agree: `SetItem` on one
      and `SetItemAsync` on the other, when the asynchronous old-value lookup
      succeeds, end with the same store and the same events. */
  method SyncAsyncSameEffect(a: LocalStorageService, b: LocalStorageService, key: string, data: Value)
    returns (ra: Outcome<Error>, rb: Outcome<Error>)
    requires a != b && key != ""
    requires a.inProcess && b.inProcess && a.hook.Coherent()
    requires a.store == b.store && a.codec == b.codec && a.hook == b.hook && a.changing == b.changing
    requires a.changingRaised == b.changingRaised && a.changedRaised == b.changedRaised
    requires b.GetItemInternalAsync(Some(key)).Success?
    modifies a, b
    ensures ra == rb == Pass
    ensures a.store == b.store
    ensures a.changingRaised == b.changingRaised && a.changedRaised == b.changedRaised
  {
    SyncAsyncSetAgree(b, key, data);
    ra := a.SetItem(Some(key), data);
    rb := b.SetItemAsync(Some(key), data);
  }
}
