/**
 * `TQROption` and its three kinds (`TQRLvaOption`, `TQRGroupOption`,
 * `TQRExamOption`): the settings bag of one registration, how it is built,
 * updated, saved to and removed from the browser's storage, and loaded back.
 */
module Records {

  import opened Wrappers
  import opened Dicts
  import opened Dates
  import opened OptionValues
  import opened Storage

  class TQROption {
    /** `this.options`: the settings, in the order the constructors and `setOptions` gave them. */
    var options: Options

    ghost predicate Valid()
      reads this
    {
      options.Valid()
    }

    /** `new TQRLvaOption()` at clock reading `now`. */
    constructor Lva(now: DateTime)
      requires now.Valid()
      ensures options == LvaDefaults(now) && Valid()
    {
      options := LvaDefaults(now);
    }

    /** `new TQRGroupOption()` at clock reading `now`. */
    constructor Group(now: DateTime)
      requires now.Valid()
      ensures options == GroupDefaults(now) && Valid()
    {
      options := GroupDefaults(now);
    }

    /** `new TQRExamOption()` at clock reading `now`; the exam date defaults to `now`. */
    constructor Exam(now: DateTime)
      requires now.Valid()
      ensures options == ExamDefaults(now) && Valid()
    {
      options := ExamDefaults(now);
    }

    /** `getKey`: the course number, a "/", and the registration type. */
    function GetKey(): (k: string)
      reads this
      requires HasIdentity(options)
      ensures k == Key(options.entries["lvaNumber"].s, options.entries["registrationType"].s)
      ensures '/' in k
    {
      var k := KeyOf(options);
      assert k[|options.entries["lvaNumber"].s|] == '/';
      k
    }

    /**
     * One of the setters `initBuildFunctions` creates, one per key the
     * constructor set (such as `lvaNumber(...)`): it assigns the key and
     * returns the record for chaining.
     */
    method SetField(key: string, value: Value) returns (self: TQROption)
      requires Valid() && key in options.entries
      modifies this
      ensures self == this && Valid()
      ensures options == Put(old(options), key, value)
    {
      options := Put(options, key, value);
      self := this;
    }

    /**
     * `setOptions`: copy every entry of `newOptions` in its order, then read a
     * start time held as text back into a date; returns the record for
     * chaining. `TQRExamOption` converts `dateOfExam` only in `newOptions`,
     * after the copy, so every kind ends in the same state.
     */
    method SetOptions(newOptions: Options) returns (self: TQROption)
      requires Valid() && newOptions.Valid()
      modifies this
      ensures self == this && Valid()
      ensures options == SetOptionsResult(old(options), newOptions)
    {
      var ks := newOptions.keys;
      assert forall k :: k in ks ==> k in newOptions.entries;
      var i := 0;
      while i < |ks|
        invariant 0 <= i <= |ks|
        invariant options == Assign(old(options), newOptions, ks[..i])
      {
        assert ks[..i + 1][..i] == ks[..i];
        options := Put(options, ks[i], newOptions.entries[ks[i]]);
        i := i + 1;
      }
      assert ks[..i] == ks;
      var start := Get(options, "specificStartTime");
      if start.Some? && start.value.Str? {
        options := Put(options, "specificStartTime", DateV(ParseDate(start.value.s)));
      }
      self := this;
    }

    /** `save`: the record's JSON form is filed under its key in the stored object, which is written back. */
    method Save(store: LocalStorage)
      requires Valid() && HasIdentity(options) && store.Valid()
      modifies store
      ensures store.Valid()
      ensures store.item == Some(Saved(ObjectOf(old(store.item)), options))
    {
      var b := store.GetLocalStorageObject();
      store.SetItem(Saved(b, options));
    }

    /** `remove`: the entry under the record's key is deleted from the stored object, which is written back. */
    method Remove(store: LocalStorage)
      requires HasIdentity(options) && store.Valid()
      modifies store
      ensures store.Valid()
      ensures store.item == Some(Removed(ObjectOf(old(store.item)), options))
    {
      var b := store.GetLocalStorageObject();
      store.SetItem(Removed(b, options));
    }
  }

  /**
   * The options `loadTQROption(lvaNumber, registrationType)` gives the record
   * it builds from the stored object `b`: the stored bag copied over the
   * defaults of the kind, or, with nothing stored, the defaults with the
   * course number set; an unknown type is an error.
   */
  function LoadedOptions(b: Blob, lvaNumber: string, registrationType: string, now: DateTime): (r: Result<Options>)
    requires now.Valid()
    requires BlobValid(b)
    ensures r.Success? <==> IsLoadableType(registrationType)
    ensures r.Success? ==> r.value.Valid() && HasIdentity(r.value) && KeyOf(r.value) == Key(lvaNumber, registrationType)
  {
    var stored := Get(b, Key(lvaNumber, registrationType));
    if !IsLoadableType(registrationType) then Failure("Registration type not valid")
    else
      var defaults := DefaultsFor(registrationType, now);
      DefaultsIdentity(registrationType, now);
      if stored.None? then
        Success(Put(defaults, "lvaNumber", Str(lvaNumber)))
      else
        var rec := stored.value;
        SetOptionsGet(defaults, rec, "lvaNumber");
        SetOptionsGet(defaults, rec, "registrationType");
        Success(SetOptionsResult(defaults, rec))
  }

  /** The constructor of the kind `registrationType` names: `TQRLvaOption`, `TQRGroupOption` or `TQRExamOption`. */
  method NewOfKind(registrationType: string, now: DateTime) returns (t: TQROption)
    requires now.Valid()
    requires IsLoadableType(registrationType)
    ensures fresh(t) && t.options == DefaultsFor(registrationType, now) && t.Valid()
  {
    if registrationType == TypeLva {
      t := new TQROption.Lva(now);
    } else if registrationType == TypeGroup {
      t := new TQROption.Group(now);
    } else {
      t := new TQROption.Exam(now);
    }
  }

  /** `TQROption.loadTQROption`: a new record of the kind `registrationType` names, or the error it throws. */
  method LoadTQROption(store: LocalStorage, lvaNumber: string, registrationType: string, now: DateTime)
    returns (r: Result<TQROption>)
    requires now.Valid()
    requires store.Valid()
    ensures r.Success? <==> IsLoadableType(registrationType)
    ensures r.Success? ==> fresh(r.value) && r.value.Valid()
    ensures r.Success? ==> Success(r.value.options) == LoadedOptions(ObjectOf(old(store.item)), lvaNumber, registrationType, now)
    ensures r.Failure? ==> Failure(r.error) == LoadedOptions(ObjectOf(old(store.item)), lvaNumber, registrationType, now)
  {
    var stored := store.LoadObject(lvaNumber, registrationType);
    if !IsLoadableType(registrationType) {
      return Failure("Registration type not valid");
    }
    var t := NewOfKind(registrationType, now);
    DefaultsIdentity(registrationType, now);
    if stored.None? {
      t := t.SetField("lvaNumber", Str(lvaNumber));
    } else {
      t := t.SetOptions(stored.value);
    }
    r := Success(t);
  }

  /**
   * With nothing stored, a loaded record is its kind's defaults with the given
   * course number: same keys in the same order, identity `lvaNumber/type`, not
   * started.
   */
  lemma LoadMissing(b: Blob, lvaNumber: string, registrationType: string, now: DateTime)
    requires now.Valid()
    requires BlobValid(b) && IsLoadableType(registrationType)
    requires Key(lvaNumber, registrationType) !in b.entries
    ensures var r := LoadedOptions(b, lvaNumber, registrationType, now);
      var defaults := DefaultsFor(registrationType, now);
      && r.Success?
      && r.value.keys == defaults.keys
      && r.value.entries["lvaNumber"] == Str(lvaNumber)
      && r.value.entries["registrationType"] == Str(registrationType)
      && Get(r.value, "started") == Some(Bool(false))
      && (forall k :: k != "lvaNumber" ==> Get(r.value, k) == Get(defaults, k))
  {
    DefaultsIdentity(registrationType, now);
  }

  /**
   * With a stored record, loading copies it over the kind's defaults: stored
   * keys win, the rest keep their default, and a stored value other than the
   * start time comes back as it was stored, never as a date.
   */
  lemma LoadStored(b: Blob, lvaNumber: string, registrationType: string, now: DateTime, k: string)
    requires now.Valid()
    requires BlobValid(b) && IsLoadableType(registrationType)
    requires Key(lvaNumber, registrationType) in b.entries
    requires k != "specificStartTime"
    ensures var r := LoadedOptions(b, lvaNumber, registrationType, now);
      var rec := b.entries[Key(lvaNumber, registrationType)];
      && r.Success?
      && Get(r.value, k) == (if k in rec.entries then Some(rec.entries[k]) else Get(DefaultsFor(registrationType, now), k))
      && (k in rec.entries ==> !Get(r.value, k).value.DateV?)
  {
    var rec := b.entries[Key(lvaNumber, registrationType)];
    SetOptionsGet(DefaultsFor(registrationType, now), rec, k);
  }

  /**
   * Saving a record and loading its course and type gives every saved key
   * back as JSON returns it (a date as its ISO text), except the start time,
   * which is read back into the very date that was saved; keys the record did
   * not have take their default.
   */
  lemma SaveLoadRoundTrip(b: Blob, o: Options, now: DateTime, k: string)
    requires now.Valid()
    requires BlobValid(b) && o.Valid() && HasIdentity(o)
    requires IsLoadableType(o.entries["registrationType"].s)
    ensures var lva, ty := o.entries["lvaNumber"].s, o.entries["registrationType"].s;
      var r := LoadedOptions(Saved(b, o), lva, ty, now);
      && r.Success?
      && (k != "specificStartTime" && k in o.entries ==> Get(r.value, k) == Some(JsonValue(o.entries[k])))
      && (k == "specificStartTime" && k in o.entries ==> Get(r.value, k) == Some(RevivedValue(JsonValue(o.entries[k]))))
      && (k !in o.entries ==> Get(r.value, k) == Get(DefaultsFor(ty, now), k))
  {
    var lva, ty := o.entries["lvaNumber"].s, o.entries["registrationType"].s;
    SaveThenLoad(b, o, lva, ty);
    var defaults := DefaultsFor(ty, now);
    DefaultsIdentity(ty, now);
    SetOptionsGet(defaults, JsonRoundTrip(o), k);
  }

  /**
   * A saved start time with a four-digit year survives saving and loading
   * unchanged: its ISO text parses back into the same date.
   */
  lemma SaveLoadStartTime(b: Blob, o: Options, now: DateTime, t: DateTime)
    requires now.Valid()
    requires BlobValid(b) && o.Valid() && HasIdentity(o)
    requires IsLoadableType(o.entries["registrationType"].s)
    requires Get(o, "specificStartTime") == Some(DateV(ValidDate(t)))
    requires t.Valid() && 0 <= t.year <= 9999
    ensures var r := LoadedOptions(Saved(b, o), o.entries["lvaNumber"].s, o.entries["registrationType"].s, now);
      r.Success? && Get(r.value, "specificStartTime") == Some(DateV(ValidDate(t)))
  {
    SaveLoadRoundTrip(b, o, now, "specificStartTime");
    ParseIsoString(t);
  }

  /** Saving a record leaves what every other course and type loads unchanged. */
  lemma SaveFrame(b: Blob, o: Options, lvaNumber: string, registrationType: string, now: DateTime)
    requires now.Valid()
    requires BlobValid(b) && o.Valid() && HasIdentity(o)
    requires Key(lvaNumber, registrationType) != KeyOf(o)
    ensures LoadedOptions(Saved(b, o), lvaNumber, registrationType, now) == LoadedOptions(b, lvaNumber, registrationType, now)
  {
    SaveThenLoad(b, o, o.entries["lvaNumber"].s, o.entries["registrationType"].s);
  }

  /** After removing a record, loading its course and type gives the defaults again. */
  lemma RemoveThenLoadDefaults(b: Blob, o: Options, now: DateTime)
    requires now.Valid()
    requires BlobValid(b) && HasIdentity(o)
    requires IsLoadableType(o.entries["registrationType"].s)
    ensures var lva, ty := o.entries["lvaNumber"].s, o.entries["registrationType"].s;
      LoadedOptions(Removed(b, o), lva, ty, now) == Success(Put(DefaultsFor(ty, now), "lvaNumber", Str(lva)))
  {
    RemoveThenLoad(b, o);
  }
}
