/** `LocalStorageService`: the decision layer between callers and the
    browser's `localStorage`, modelled over an abstract key/value map. */
module LocalStorage {
  import opened Wrappers
  import opened DotNetString
  import DataTransformer

  /** A value given to `SetItem<T>` or produced by `GetItem<T>`: null, a
      string, or an object of any other type (opaque, told apart by a handle). */
  datatype Value = Null | Text(s: string) | Object(handle: nat)

  /** The type argument `T` of a generic call: the library only asks whether
      it is `string`; `zero` is `default(T)` for the other types. */
  datatype TypeArg = StringType | OtherType(name: string, zero: Value)

  /** `object`, the type the old-value lookups decode into. */
  const ObjectType: TypeArg := OtherType("object", Null)

  /** `default(T)`: null for `string`. */
  function DefaultOf(t: TypeArg): Value {
    match t
    case StringType => Null
    case OtherType(_, zero) => zero
  }

  /** The exceptions the service raises or lets through. */
  datatype Error =
    | ArgumentNull      // ArgumentNullException: null or empty key
    | InvalidOperation  // InvalidOperationException: no in-process runtime
    | JsonFailure       // any failure of the deserialiser

  /** `System.Text.Json` with the configured options, left uninterpreted.
      `serialize` is total: serialising never fails in this model.
      `deserialize` gives `None` wherever the deserialiser throws, and every
      such failure is the one error `JsonFailure`. */
  datatype Codec = Codec(
    serialize: Value -> string,
    deserialize: (string, TypeArg) -> Option<Value>)

  /** `JsonSerializer.Deserialize<T>`; every failure of it is `JsonFailure`. */
  function Deserialize(codec: Codec, s: string, t: TypeArg): (r: Result<Value, Error>)
    ensures r.Success? <==> codec.deserialize(s, t).Some?
    ensures r.Failure? ==> r.error == JsonFailure
    ensures r.Success? ==> codec.deserialize(s, t) == Some(r.value)
  {
    match codec.deserialize(s, t)
    case Some(v) => Success(v)
    case None => Failure(JsonFailure)
  }

  /** The shape test of the read side: braced, or starting and ending with a
      double quote. The comparison is character by character, so the test
      reads the first and the last character, and a lone `"` counts. */
  function LooksLikeJson(s: string): (b: bool)
    ensures b <==> |s| > 0 && ((s[0] == '{' && s[|s| - 1] == '}') || (s[0] == '"' && s[|s| - 1] == '"'))
    ensures s == "\"" ==> b
  {
    || (StartsWith(s, "{") && EndsWith(s, "}"))
    || (StartsWith(s, "\"") && EndsWith(s, "\""))
  }

  /** What `localStorage.getItem` returns: null for a missing key. */
  function Lookup(store: map<string, string>, key: string): (r: NString)
    ensures r.Some? <==> key in store
    ensures r.Some? ==> r.value == store[key]
  {
    if key in store then Some(store[key]) else None
  }

  /** What `localStorage.setItem` keeps: JavaScript turns null into "null". */
  function StoredForm(v: NString): string {
    match v
    case None => "null"
    case Some(s) => s
  }

  /** The write branch of `SetItem`: a string passes unchanged, anything else
      (null included, since null is not `string`) is serialised; the result
      is transformed and handed to the store. */
  function Encode(data: Value, codec: Codec, transform: NString -> NString): (r: string)
    ensures data.Text? ==> r == StoredForm(transform(Some(data.s)))
    ensures !data.Text? ==> r == StoredForm(transform(Some(codec.serialize(data))))
  {
    var text := if data.Text? then data.s else codec.serialize(data);
    StoredForm(transform(Some(text)))
  }

  /** The typing heuristic of `GetItem<T>`, applied to the untransformed text:
      default for null or white space; the deserialiser for JSON-shaped text
      or any `T` other than `string`; the raw text otherwise. */
  function ReadAs(data: NString, t: TypeArg, codec: Codec): (r: Result<Value, Error>)
    ensures IsNullOrWhiteSpace(data) ==> r == Success(DefaultOf(t))
    ensures !IsNullOrWhiteSpace(data) && (LooksLikeJson(data.value) || t != StringType) ==>
              r == Deserialize(codec, data.value, t)
    ensures !IsNullOrWhiteSpace(data) && !LooksLikeJson(data.value) && t == StringType ==>
              r == Success(Text(data.value))
    ensures r.Failure? ==> r.error == JsonFailure && !IsNullOrWhiteSpace(data)
  {
    if IsNullOrWhiteSpace(data) then Success(DefaultOf(t))
    else if LooksLikeJson(data.value) || t != StringType then Deserialize(codec, data.value, t)
    else Success(Text(data.value))
  }

  /** The lenient old-value decoding of the synchronous `GetItemInternal`:
      shaped text is deserialised as `object`, and a decode failure falls
      back to the raw text, so it never fails. */
  function LenientOldValue(data: NString, codec: Codec): (r: Value)
    ensures IsNullOrWhiteSpace(data) ==> r == Null
    ensures !IsNullOrWhiteSpace(data) && !LooksLikeJson(data.value) ==> r == Text(data.value)
    ensures !IsNullOrWhiteSpace(data) && LooksLikeJson(data.value) ==>
              r == (match codec.deserialize(data.value, ObjectType)
                    case Some(v) => v
                    case None => Text(data.value))
  {
    if IsNullOrWhiteSpace(data) then Null
    else if LooksLikeJson(data.value) then
      match Deserialize(codec, data.value, ObjectType)
      case Success(v) => v
      case Failure(_) => Text(data.value)
    else Text(data.value)
  }

  /** The old-value decoding of `GetItemInternalAsync<object>`: the same test,
      with no catch around the deserialiser. */
  function StrictOldValue(data: NString, codec: Codec): (r: Result<Value, Error>)
    ensures r.Failure? <==>
              !IsNullOrWhiteSpace(data) && LooksLikeJson(data.value)
              && codec.deserialize(data.value, ObjectType).None?
    ensures r.Failure? ==> r.error == JsonFailure
    ensures IsNullOrWhiteSpace(data) ==> r == Success(Null)
    ensures !IsNullOrWhiteSpace(data) && !LooksLikeJson(data.value) ==> r == Success(Text(data.value))
    ensures !IsNullOrWhiteSpace(data) && LooksLikeJson(data.value) ==> r == Deserialize(codec, data.value, ObjectType)
  {
    if IsNullOrWhiteSpace(data) then Success(Null)
    else if LooksLikeJson(data.value) then Deserialize(codec, data.value, ObjectType)
    else Success(Text(data.value))
  }

  /** `ChangingEventArgs` after the subscribers ran: `cancel` is the final
      value of its `Cancel` flag. */
  datatype ChangingArgs = ChangingArgs(key: string, oldValue: Value, newValue: Value, cancel: bool)

  /** `ChangedEventArgs`. */
  datatype ChangedArgs = ChangedArgs(key: string, oldValue: Value, newValue: Value)

  /** The service. `store` stands for the browser's `localStorage`;
      `inProcess` says whether the runtime offers synchronous in-process calls
      (`IJSInProcessRuntime`); `changing` is the combined decision of the
      `Changing` subscribers; the raised events are recorded in order. */
  class LocalStorageService {
    var store: map<string, string>
    const inProcess: bool
    const codec: Codec
    const hook: DataTransformer.Hook
    var changing: ChangingArgs -> bool
    var changingRaised: seq<ChangingArgs>
    var changedRaised: seq<ChangedArgs>

    constructor (initial: map<string, string>, inProcess: bool, codec: Codec,
                 hook: DataTransformer.Hook, changing: ChangingArgs -> bool)
      ensures store == initial && this.inProcess == inProcess
      ensures this.codec == codec && this.hook == hook && this.changing == changing
      ensures changingRaised == [] && changedRaised == []
    {
      store := initial;
      this.inProcess := inProcess;
      this.codec := codec;
      this.hook := hook;
      this.changing := changing;
      changingRaised := [];
      changedRaised := [];
    }

    /** The arguments of a `Changing` event once the subscribers have seen
        them (with `Cancel` initially false). */
    function ChangingEvent(key: string, oldValue: Value, data: Value): (e: ChangingArgs)
      reads this
      ensures e.key == key && e.oldValue == oldValue && e.newValue == data
      ensures e.cancel == changing(ChangingArgs(key, oldValue, data, false))
    {
      var e := ChangingArgs(key, oldValue, data, false);
      e.(cancel := changing(e))
    }

    /** `GetItem<T>`: key check, runtime check, then read, untransform and
        apply the typing heuristic. */
    function GetItem(key: NString, t: TypeArg): (r: Result<Value, Error>)
      reads this
      ensures IsNullOrEmpty(key) ==> r == Failure(ArgumentNull)
      ensures !IsNullOrEmpty(key) && !inProcess ==> r == Failure(InvalidOperation)
      ensures !IsNullOrEmpty(key) && inProcess ==>
                r == ReadAs(hook.untransform(Lookup(store, key.value)), t, codec)
    {
      if IsNullOrEmpty(key) then Failure(ArgumentNull)
      else if !inProcess then Failure(InvalidOperation)
      else ReadAs(hook.untransform(Lookup(store, key.value)), t, codec)
    }

    /** `GetItemAsync<T>`: as `GetItem`, with no runtime check and the
        asynchronous untransform. */
    function GetItemAsync(key: NString, t: TypeArg): (r: Result<Value, Error>)
      reads this
      ensures IsNullOrEmpty(key) ==> r == Failure(ArgumentNull)
      ensures !IsNullOrEmpty(key) ==>
                r == ReadAs(hook.untransformAsync(Lookup(store, key.value)), t, codec)
    {
      if IsNullOrEmpty(key) then Failure(ArgumentNull)
      else ReadAs(hook.untransformAsync(Lookup(store, key.value)), t, codec)
    }

    /** `GetItemAsString`: the untransformed stored text, never interpreted. */
    function GetItemAsString(key: NString): (r: Result<NString, Error>)
      reads this
      ensures IsNullOrEmpty(key) ==> r == Failure(ArgumentNull)
      ensures !IsNullOrEmpty(key) && !inProcess ==> r == Failure(InvalidOperation)
      ensures !IsNullOrEmpty(key) && inProcess ==>
                r == Success(hook.untransform(Lookup(store, key.value)))
    {
      if IsNullOrEmpty(key) then Failure(ArgumentNull)
      else if !inProcess then Failure(InvalidOperation)
      else Success(hook.untransform(Lookup(store, key.value)))
    }

    /** `GetItemAsStringAsync`. */
    function GetItemAsStringAsync(key: NString): (r: Result<NString, Error>)
      reads this
      ensures IsNullOrEmpty(key) ==> r == Failure(ArgumentNull)
      ensures !IsNullOrEmpty(key) ==> r == Success(hook.untransformAsync(Lookup(store, key.value)))
    {
      if IsNullOrEmpty(key) then Failure(ArgumentNull)
      else Success(hook.untransformAsync(Lookup(store, key.value)))
    }

    /** `GetItemInternal`, the synchronous old-value lookup: its only failures
        are the two guards; a decode failure never escapes. */
    function GetItemInternal(key: NString): (r: Result<Value, Error>)
      reads this
      ensures r.Failure? <==> IsNullOrEmpty(key) || !inProcess
      ensures r.Failure? ==> r.error == (if IsNullOrEmpty(key) then ArgumentNull else InvalidOperation)
      ensures r.Success? ==> r.value == LenientOldValue(hook.untransform(Lookup(store, key.value)), codec)
    {
      if IsNullOrEmpty(key) then Failure(ArgumentNull)
      else if !inProcess then Failure(InvalidOperation)
      else Success(LenientOldValue(hook.untransform(Lookup(store, key.value)), codec))
    }

    /** `GetItemInternalAsync<object>`, the asynchronous old-value lookup:
        the deserialiser's failure propagates. */
    function GetItemInternalAsync(key: NString): (r: Result<Value, Error>)
      reads this
      ensures IsNullOrEmpty(key) ==> r == Failure(ArgumentNull)
      ensures !IsNullOrEmpty(key) ==>
                r == StrictOldValue(hook.untransformAsync(Lookup(store, key.value)), codec)
    {
      if IsNullOrEmpty(key) then Failure(ArgumentNull)
      else StrictOldValue(hook.untransformAsync(Lookup(store, key.value)), codec)
    }

    /** `RaiseOnChangingSync`: looks the old value up leniently, raises
        `Changing` and returns the arguments the subscribers left. Its only
        caller has already checked the key and the runtime. */
    method RaiseOnChangingSync(key: string, data: Value) returns (e: ChangingArgs)
      requires key != "" && inProcess
      modifies this`changingRaised
      ensures GetItemInternal(Some(key)) == Success(e.oldValue)
      ensures e == ChangingEvent(key, e.oldValue, data)
      ensures changingRaised == old(changingRaised) + [e]
    {
      var oldValue := GetItemInternal(Some(key)).value;
      e := ChangingEvent(key, oldValue, data);
      changingRaised := changingRaised + [e];
    }

    /** `RaiseOnChangingAsync`: as the synchronous one, but the strict lookup
        may throw, and then no event is raised. Its only caller has already
        checked the key. */
    method RaiseOnChangingAsync(key: string, data: Value) returns (r: Result<ChangingArgs, Error>)
      requires key != ""
      modifies this`changingRaised
      ensures r.Failure? <==> GetItemInternalAsync(Some(key)).Failure?
      ensures r.Failure? ==> r.error == JsonFailure && changingRaised == old(changingRaised)
      ensures r.Success? ==>
                && GetItemInternalAsync(Some(key)) == Success(r.value.oldValue)
                && r.value == ChangingEvent(key, r.value.oldValue, data)
                && changingRaised == old(changingRaised) + [r.value]
    {
      var lookup := GetItemInternalAsync(Some(key));
      match lookup
      case Failure(err) =>
        r := Failure(err);
      case Success(oldValue) =>
        var e := ChangingEvent(key, oldValue, data);
        changingRaised := changingRaised + [e];
        r := Success(e);
    }

    /** `RaiseOnChanged`: raises `Changed` with the given arguments. */
    method RaiseOnChanged(key: string, oldValue: Value, data: Value)
      modifies this`changedRaised
      ensures changedRaised == old(changedRaised) + [ChangedArgs(key, oldValue, data)]
    {
      changedRaised := changedRaised + [ChangedArgs(key, oldValue, data)];
    }

    /** `SetItem<T>`: key check, runtime check, `Changing` (with the lenient
        old value); on cancel nothing is written and `Changed` is not
        raised; otherwise one entry is written and `Changed` carries the
        same key and old value and the original data. */
    method SetItem(key: NString, data: Value) returns (r: Outcome<Error>)
      modifies this`store, this`changingRaised, this`changedRaised
      ensures IsNullOrEmpty(key) ==> r == Fail(ArgumentNull)
      ensures !IsNullOrEmpty(key) && !inProcess ==> r == Fail(InvalidOperation)
      ensures r.Fail? ==>
                store == old(store) && changingRaised == old(changingRaised)
                && changedRaised == old(changedRaised)
      ensures r.Pass? <==> !IsNullOrEmpty(key) && inProcess
      ensures r.Pass? ==>
                var e := ChangingEvent(key.value, old(GetItemInternal(key)).value, data);
                && changingRaised == old(changingRaised) + [e]
                && (e.cancel ==> store == old(store) && changedRaised == old(changedRaised))
                && (!e.cancel ==>
                      && store == old(store)[key.value := Encode(data, codec, hook.transform)]
                      && changedRaised == old(changedRaised) + [ChangedArgs(key.value, e.oldValue, data)])
    {
      if IsNullOrEmpty(key) {
        return Fail(ArgumentNull);
      }
      if !inProcess {
        return Fail(InvalidOperation);
      }
      var e := RaiseOnChangingSync(key.value, data);
      r := Pass;
      if e.cancel {
        return;
      }
      if data.Text? {
        var transformed := hook.transform(Some(data.s));
        store := store[key.value := StoredForm(transformed)];
      } else {
        var serialized := codec.serialize(data);
        serialized := StoredForm(hook.transform(Some(serialized)));
        store := store[key.value := serialized];
      }
      RaiseOnChanged(key.value, e.oldValue, data);
    }

    /** `SetItemAsync<T>`: as `SetItem` with no runtime check, the strict old
        value lookup (whose decode failure aborts the call before anything
        is raised or written) and the asynchronous transform. */
    method SetItemAsync(key: NString, data: Value) returns (r: Outcome<Error>)
      modifies this`store, this`changingRaised, this`changedRaised
      ensures IsNullOrEmpty(key) ==> r == Fail(ArgumentNull)
      ensures !IsNullOrEmpty(key) && old(GetItemInternalAsync(key)).Failure? ==> r == Fail(JsonFailure)
      ensures r.Fail? ==>
                store == old(store) && changingRaised == old(changingRaised)
                && changedRaised == old(changedRaised)
      ensures r.Pass? <==> old(GetItemInternalAsync(key)).Success?
      ensures r.Pass? ==>
                var e := ChangingEvent(key.value, old(GetItemInternalAsync(key)).value, data);
                && changingRaised == old(changingRaised) + [e]
                && (e.cancel ==> store == old(store) && changedRaised == old(changedRaised))
                && (!e.cancel ==>
                      && store == old(store)[key.value := Encode(data, codec, hook.transformAsync)]
                      && changedRaised == old(changedRaised) + [ChangedArgs(key.value, e.oldValue, data)])
    {
      if IsNullOrEmpty(key) {
        return Fail(ArgumentNull);
      }
      var raised := RaiseOnChangingAsync(key.value, data);
      if raised.Failure? {
        return Fail(raised.error);
      }
      var e := raised.value;
      r := Pass;
      if e.cancel {
        return;
      }
      if data.Text? {
        var transformed := hook.transformAsync(Some(data.s));
        store := store[key.value := StoredForm(transformed)];
      } else {
        var serialized := codec.serialize(data);
        serialized := StoredForm(hook.transformAsync(Some(serialized)));
        store := store[key.value := serialized];
      }
      RaiseOnChanged(key.value, e.oldValue, data);
    }

    /** `RemoveItem`: key check, runtime check, then the entry is gone and
        every other entry is kept. */
    method RemoveItem(key: NString) returns (r: Outcome<Error>)
      modifies this`store
      ensures IsNullOrEmpty(key) ==> r == Fail(ArgumentNull)
      ensures !IsNullOrEmpty(key) && !inProcess ==> r == Fail(InvalidOperation)
      ensures r.Fail? ==> store == old(store)
      ensures r.Pass? <==> !IsNullOrEmpty(key) && inProcess
      ensures r.Pass? ==> store == old(store) - {key.value}
    {
      if IsNullOrEmpty(key) {
        return Fail(ArgumentNull);
      }
      if !inProcess {
        return Fail(InvalidOperation);
      }
      store := store - {key.value};
      r := Pass;
    }

    /** `RemoveItemAsync`: key check, then the entry is gone. */
    method RemoveItemAsync(key: NString) returns (r: Outcome<Error>)
      modifies this`store
      ensures r == (if IsNullOrEmpty(key) then Fail(ArgumentNull) else Pass)
      ensures r.Fail? ==> store == old(store)
      ensures r.Pass? ==> store == old(store) - {key.value}
    {
      if IsNullOrEmpty(key) {
        return Fail(ArgumentNull);
      }
      store := store - {key.value};
      r := Pass;
    }

    /** `Clear`: runtime check, then the store is empty. */
    method Clear() returns (r: Outcome<Error>)
      modifies this`store
      ensures r == (if inProcess then Pass else Fail(InvalidOperation))
      ensures r.Fail? ==> store == old(store)
      ensures r.Pass? ==> store == map[]
    {
      if !inProcess {
        return Fail(InvalidOperation);
      }
      store := map[];
      r := Pass;
    }

    /** `ClearAsync`: the store is empty. */
    method ClearAsync()
      modifies this`store
      ensures store == map[]
    {
      store := map[];
    }
  }
}
