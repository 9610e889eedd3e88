/**
 * `useStickyState`: a piece of component state mirrored into one storage
 * slot. The first render loads the slot (falling back on the caller's
 * default), and the save effect writes the encoded state back after the
 * first render and after every change.
 */
module StickyState {
  import opened Wrappers
  import opened LocalStorage

  /** What decoding stored text gives: the JSON `null`, or a value of the slot's type. */
  datatype Decoded<T> = Null | Value(value: T)

  /**
   * The text form of a slot's values: `encode` stands for `JSON.stringify`,
   * `decode` for `JSON.parse`, with `None` for text that makes it throw.
   */
  datatype Codec<!T> = Codec(encode: T -> string, decode: string -> Option<Decoded<T>>)

  /**
   * What the slot relies on of its codec: every value encodes to non-empty
   * text (empty text would read as an absent slot) that decodes back to it.
   */
  ghost predicate RoundTrips<T(!new)>(codec: Codec<T>) {
    forall v :: codec.encode(v) != "" && codec.decode(codec.encode(v)) == Some(Value(v))
  }

  /**
   * `getDefaultLocalStorageValue`: the stored text decoded, or `Null` when
   * the slot is absent, holds empty text or holds text that does not decode.
   */
  function LoadStored<T>(stored: Option<string>, codec: Codec<T>): (r: Decoded<T>) {
    if stored.None? || stored.value == "" then Null
    else codec.decode(stored.value).GetOr(Null)
  }

  /** `loaded ?? default`: only a missing value is replaced, never a falsy one. */
  function Coalesce<T>(loaded: Decoded<T>, default: T): (r: T) {
    match loaded
    case Null => default
    case Value(v) => v
  }

  /** The state of the first render: `getDefaultLocalStorageValue(key) ?? defaultValue`. */
  function InitialState<T>(stored: Option<string>, codec: Codec<T>, default: T): (r: T) {
    Coalesce(LoadStored(stored, codec), default)
  }

  /**
   * The first render falls back on the default exactly when the slot is
   * absent, empty, undecodable or holds `null`; otherwise it starts from the
   * decoded value, whatever that value is.
   */
  lemma InitialStateCases<T>(stored: Option<string>, codec: Codec<T>, default: T)
    ensures stored.None? || stored.value == "" ==> InitialState(stored, codec, default) == default
    ensures stored.Some? && stored.value != "" && codec.decode(stored.value) in {None, Some(Null)}
            ==> InitialState(stored, codec, default) == default
    ensures stored.Some? && stored.value != "" && codec.decode(stored.value).Some?
            && codec.decode(stored.value).value.Value?
            ==> InitialState(stored, codec, default) == codec.decode(stored.value).value.value
  {
  }

  /** A slot holding the encoding of `v` loads as `v`, whatever the default. */
  lemma {:induction false} ReloadRestores<T(!new)>(codec: Codec<T>, v: T, default: T)
    requires RoundTrips(codec)
    ensures InitialState(Some(codec.encode(v)), codec, default) == v
  {
    assert codec.encode(v) != "" && codec.decode(codec.encode(v)) == Some(Value(v));
  }

  /** A new state given to the setter: a value, or an updater applied to the current state. */
  datatype Action<!T> = Replace(value: T) | Update(f: T -> T)

  /** The state after `setState(action)`. */
  function Next<T>(action: Action<T>, current: T): (r: T) {
    match action
    case Replace(v) => v
    case Update(f) => f(current)
  }

  /** One `useStickyState(key, default)` hook: its state, and the slot it saves to. */
  class Sticky<T(!new)> {
    const storage: Storage
    const key: string
    const codec: Codec<T>
    var state: T

    /** After every save effect the slot holds the encoded current state. */
    ghost predicate Valid()
      reads this, storage
    {
      key in storage.items && storage.items[key] == codec.encode(state)
    }

    /** The first render (load with fallback) followed by the first save effect. */
    constructor (storage: Storage, key: string, default: T, codec: Codec<T>)
      modifies storage
      ensures this.storage == storage && this.key == key && this.codec == codec
      ensures state == InitialState(old(storage.GetItem(key)), codec, default)
      ensures storage.items == old(storage.items)[key := codec.encode(state)]
      ensures Valid()
    {
      this.storage := storage;
      this.key := key;
      this.codec := codec;
      state := InitialState(storage.GetItem(key), codec, default);
      new;
      storage.SetItem(key, codec.encode(state));
    }

    /** `setState(action)` followed by the save effect it triggers. */
    method SetState(action: Action<T>)
      requires Valid()
      modifies this, storage
      ensures state == Next(action, old(state))
      ensures storage.items == old(storage.items)[key := codec.encode(state)]
      ensures Valid()
    {
      state := Next(action, state);
      storage.SetItem(key, codec.encode(state));
    }

    /** Loading the slot again (a page reload) gives back the current state. */
    lemma ReloadGivesState(default: T)
      requires Valid() && RoundTrips(codec)
      ensures InitialState(storage.GetItem(key), codec, default) == state
    {
      ReloadRestores(codec, state, default);
    }
  }
}
