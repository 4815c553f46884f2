/**
 * The state `TissQuickRegistration` keeps between events: the record the
 * panel shows, the configuration form and the record selector; and the
 * handlers that change it: loading a record into the form, Save, Delete and
 * Start.
 */
module Page {

  import opened Wrappers
  import opened Dicts
  import opened Dates
  import opened OptionValues
  import opened Storage
  import opened Records
  import opened Registration

  /** What `injectOptions` is asked to show: the page's own record, or the key picked in the selector. */
  datatype Request = PageRecord(lvaNumber: string, registrationType: string) | Picked(value: string)

  /**
   * The course number and type a request names. A picked value is split at
   * "/"; a value without one leaves the type `undefined`, which reads as the
   * text "undefined" when it is joined into a key.
   */
  function Identity(request: Request): (r: (string, string))
    ensures request.PageRecord? ==> r == (request.lvaNumber, request.registrationType)
  {
    match request
    case PageRecord(lva, ty) => (lva, ty)
    case Picked(value) =>
      var parts := Split(value);
      (parts[0], if |parts| > 1 then parts[1] else "undefined")
  }

  /** Picking a stored key whose course number holds no "/" asks for exactly that course and type. */
  lemma PickedKeyIdentity(lvaNumber: string, registrationType: string)
    requires '/' !in lvaNumber && '/' !in registrationType
    ensures Identity(Picked(Key(lvaNumber, registrationType))) == (lvaNumber, registrationType)
  {
    KeySplit(lvaNumber, registrationType);
  }

  /** Picking the "Create new" option, whose value is empty, asks for no loadable type: loading it throws. */
  lemma PickedCreateNewFails(b: Blob, now: DateTime)
    requires now.Valid()
    requires BlobValid(b)
    ensures Identity(Picked("")) == ("", "undefined")
    ensures LoadedOptions(b, "", "undefined", now).Failure?
  {
  }

  /** The message of the `TypeError` a handler throws when the panel has no record. */
  const NoRecord := "Cannot read properties of null"

  /** The message `injectOptions` throws on a `null` field. */
  const NullField := "Cannot read properties of null (reading 'constructor')"

  /** The message the Start handler logs when the record is not the page's. */
  const WrongRecord := "Cannot started with these options!"

  /** A record the panel can show and start: well-formed, naming its course and type, with a `started` flag. */
  predicate Ready(o: Options) {
    o.Valid() && HasIdentity(o) && "started" in o.entries
  }

  class TissQuickRegistration {
    /** `TissQuickRegistration.options`: the record on show, `null` until one was loaded. */
    var options: TQROption?
    /** The elements of the configuration form section. */
    var form: seq<Element>
    /** The record selector. */
    var dropdown: Dropdown

    ghost predicate Valid()
      reads this`options, options
    {
      options != null ==> Ready(options.options)
    }

    /**
     * The panel as injected, before `injectOptions` first runs: no record, a
     * form section holding only its heading, and an empty selector.
     */
    constructor ()
      ensures Valid() && options == null && form == [Heading] && dropdown == Dropdown([], "")
    {
      options := null;
      form := [Heading];
      dropdown := Dropdown([], "");
    }

    /**
     * `injectOptions`: load the requested record; on success rebuild the form
     * from it, and once the form is complete show that record and select its
     * key. A load error changes nothing; a `null` field leaves the form as far
     * as it got and the rest unchanged.
     */
    method InjectOptions(store: LocalStorage, request: Request, now: DateTime) returns (error: Option<string>)
      requires now.Valid()
      requires Valid() && store.Valid()
      modifies this
      ensures Valid()
      ensures var id := Identity(request);
        var loaded := LoadedOptions(ObjectOf(old(store.item)), id.0, id.1, now);
        loaded.Failure? ==> error == Some(loaded.error) && unchanged(this)
      ensures var id := Identity(request);
        var loaded := LoadedOptions(ObjectOf(old(store.item)), id.0, id.1, now);
        loaded.Success? ==> Shows(store, loaded.value, error, old(options), old(dropdown))
      ensures error.None? ==> fresh(options)
    {
      var id := Identity(request);
      ghost var b := store.GetLocalStorageObject();
      DefaultsKeepStarted(b, id.0, id.1, now);
      var loaded := LoadTQROption(store, id.0, id.1, now);
      if loaded.Failure? {
        return Some(loaded.error);
      }
      error := Show(store, loaded.value);
    }

    /** What the panel holds after `injectOptions` rebuilt the form from the loaded settings `o`. */
    ghost predicate Shows(store: LocalStorage, o: Options, error: Option<string>, oldOptions: TQROption?, oldDropdown: Dropdown)
      reads this, options, store
      requires o.Valid() && store.Valid()
    {
      && form == Render(o, o.keys).elements
      && (error.None? <==> Render(o, o.keys).complete)
      && (error.Some? ==> error == Some(NullField) && options == oldOptions && dropdown == oldDropdown)
      && (error.None? ==>
            && options != null && options.options == o && HasIdentity(o)
            && dropdown == DropdownFor(ObjectOf(store.item).keys, Some(KeyOf(o))))
    }

    /** The part of `injectOptions` after the load: the form loop, then the record and selector. */
    method Show(store: LocalStorage, record: TQROption) returns (error: Option<string>)
      requires Valid() && store.Valid()
      requires Ready(record.options)
      modifies this
      ensures Valid()
      ensures Shows(store, record.options, error, old(options), old(dropdown))
      ensures error.None? ==> options == record
    {
      var rendered := RenderFields(record.options);
      form := rendered.elements;
      if !rendered.complete {
        return Some(NullField);
      }
      options := record;
      dropdown := UpdateOptionDropdown(store, Some(record.GetKey()));
      error := None;
    }

    /**
     * The Save handler: copy the form's data into the record, save it, and
     * select its key.
     */
    method OnSave(store: LocalStorage, data: Options) returns (error: Option<string>)
      requires Valid() && store.Valid() && data.Valid() && KeepsIdentity(data)
      modifies this`dropdown, options, store
      ensures Valid() && store.Valid()
      ensures old(options) == null ==> error == Some(NoRecord) && unchanged(this, store)
      ensures old(options) != null ==>
        && error == None
        && old(options).options == SetOptionsResult(old(options.options), data)
        && store.item == Some(Saved(ObjectOf(old(store.item)), old(options).options))
        && dropdown == DropdownFor(ObjectOf(store.item).keys, Some(KeyOf(old(options).options)))
    {
      if options == null {
        return Some(NoRecord);
      }
      dropdown := SaveShown(store, data);
      error := None;
    }

    /** The Save handler with a record on show: the record updated and saved, and the selector it then shows. */
    method SaveShown(store: LocalStorage, data: Options) returns (d: Dropdown)
      requires Valid() && store.Valid() && data.Valid() && KeepsIdentity(data) && options != null
      modifies options, store
      ensures Valid() && store.Valid()
      ensures options.options == SetOptionsResult(old(options.options), data)
      ensures store.item == Some(Saved(ObjectOf(old(store.item)), options.options))
      ensures d == DropdownFor(ObjectOf(store.item).keys, Some(KeyOf(options.options)))
    {
      SetOptionsThenSave(options, store, data);
      d := UpdateOptionDropdown(store, Some(options.GetKey()));
    }

    /** The Delete handler: remove the record from storage and reset the selector to "Create new". */
    method OnDelete(store: LocalStorage) returns (error: Option<string>)
      requires Valid() && store.Valid()
      modifies this`dropdown, store
      ensures Valid() && options == old(options) && form == old(form)
      ensures old(options) == null ==> error == Some(NoRecord) && unchanged(this, store)
      ensures options != null ==>
        && error == None
        && store.item == Some(Removed(ObjectOf(old(store.item)), options.options))
        && dropdown == DropdownFor(ObjectOf(store.item).keys, None)
    {
      if options == null {
        return Some(NoRecord);
      }
      options.Remove(store);
      dropdown := UpdateOptionDropdown(store, None);
      error := None;
    }

    /**
     * The Start handler on the page of course `lvaNumber` and type
     * `registrationType`: it refuses, changing nothing, unless the record on
     * show is the page's; otherwise it marks the record started and saves it
     * as the Save handler does.
     */
    method Start(store: LocalStorage, lvaNumber: string, registrationType: string, data: Options)
      returns (error: Option<string>)
      requires Valid() && store.Valid() && data.Valid() && KeepsIdentity(data)
      modifies this`dropdown, options, store
      ensures Valid() && store.Valid()
      ensures old(options) == null ==> error == Some(NoRecord) && unchanged(this, store)
      ensures old(options) != null && KeyOf(old(options.options)) != Key(lvaNumber, registrationType) ==>
        error == Some(WrongRecord) && unchanged(this, old(options), store)
      ensures old(options) != null && KeyOf(old(options.options)) == Key(lvaNumber, registrationType) ==>
        && error == None
        && old(options).options == SetOptionsResult(Put(old(options.options), "started", Bool(true)), data)
        && store.item == Some(Saved(ObjectOf(old(store.item)), old(options).options))
        && dropdown == DropdownFor(ObjectOf(store.item).keys, Some(KeyOf(old(options).options)))
    {
      if options == null {
        return Some(NoRecord);
      }
      var selectedKey := Key(lvaNumber, registrationType);
      if options.GetKey() != selectedKey {
        return Some(WrongRecord);
      }
      var record := options.SetField("started", Bool(true));
      dropdown := SaveShown(store, data);
      error := None;
    }
  }

  /** `options.setOptions(data).save()`, the body of the Save handler. */
  method SetOptionsThenSave(record: TQROption, store: LocalStorage, data: Options)
    requires Ready(record.options)
    requires store.Valid() && data.Valid() && KeepsIdentity(data)
    modifies record, store
    ensures record.options == SetOptionsResult(old(record.options), data)
    ensures Ready(record.options)
    ensures ItemValid(store.item) && store.item == Some(Saved(ObjectOf(old(store.item)), record.options))
  {
    SetOptionsIdentity(record.options, data);
    SetOptionsGet(record.options, data, "started");
    var self := record.SetOptions(data);
    record.Save(store);
  }

  /** Every record `loadTQROption` yields has the `started` field its setter needs. */
  lemma DefaultsKeepStarted(b: Blob, lvaNumber: string, registrationType: string, now: DateTime)
    requires now.Valid()
    requires BlobValid(b)
    ensures var r := LoadedOptions(b, lvaNumber, registrationType, now);
      r.Success? ==> "started" in r.value.entries
  {
    if IsLoadableType(registrationType) {
      var defaults := DefaultsFor(registrationType, now);
      DefaultsIdentity(registrationType, now);
      var stored := Get(b, Key(lvaNumber, registrationType));
      if stored.Some? {
        SetOptionsGet(defaults, stored.value, "started");
      }
    }
  }

  /**
   * Start on the page a record belongs to, with form data that has no status
   * field, stores the record as started under the page's key.
   */
  lemma StartStoresStarted(b: Blob, o: Options, data: Options, lvaNumber: string, registrationType: string)
    requires BlobValid(b) && o.Valid() && HasIdentity(o) && data.Valid()
    requires KeyOf(o) == Key(lvaNumber, registrationType)
    requires forall k :: k in data.entries ==> !IsExcluded(k)
    ensures var started := SetOptionsResult(Put(o, "started", Bool(true)), data);
      && HasIdentity(started) && KeyOf(started) == Key(lvaNumber, registrationType)
      && Get(Saved(b, started), Key(lvaNumber, registrationType)).Some?
      && Get(Get(Saved(b, started), Key(lvaNumber, registrationType)).value, "started") == Some(Bool(true))
  {
    var started := SetOptionsResult(Put(o, "started", Bool(true)), data);
    MarkedStarted(o, data);
    SaveThenLoad(b, started, lvaNumber, registrationType);
    assert Get(JsonRoundTrip(started), "started") == Some(JsonValue(Bool(true)));
  }

  /** Marking a record started and copying form data that leaves `started` alone keeps the mark and the identity. */
  lemma MarkedStarted(o: Options, data: Options)
    requires o.Valid() && HasIdentity(o) && data.Valid()
    requires forall k :: k in data.entries ==> !IsExcluded(k)
    ensures var started := SetOptionsResult(Put(o, "started", Bool(true)), data);
      && started.Valid() && HasIdentity(started) && KeyOf(started) == KeyOf(o)
      && Get(started, "started") == Some(Bool(true))
  {
    var marked := Put(o, "started", Bool(true));
    SetOptionsIdentity(marked, data);
    SetOptionsGet(marked, data, "started");
    assert IsExcluded("started");
  }
}
