/**
 * The browser's `localStorage` item "TQRSavedOptions" as the script sees it:
 * one JSON object from identity key to the settings bag saved under it. The
 * item is held here already parsed; bags are stored in the form a JSON round
 * trip gives them back.
 */
module Storage {

  import opened Wrappers
  import opened Dicts
  import opened OptionValues

  type Blob = Dict<Options>

  /**
   * Every record is a well-formed bag that names its course and type, is
   * filed under its own key, and holds no dates, as JSON gives it back.
   */
  predicate BlobValid(b: Blob) {
    && b.Valid()
    && forall k :: k in b.entries ==>
         b.entries[k].Valid() && HasIdentity(b.entries[k]) && KeyOf(b.entries[k]) == k && NoDates(b.entries[k])
  }

  /** The object an item holds: the empty object while nothing is stored. */
  function ObjectOf(item: Option<Blob>): (b: Blob)
    ensures item.Some? ==> b == item.value
    ensures item.None? ==> b.keys == [] && b.entries == map[]
  {
    if item.None? then Empty() else item.value
  }

  /** A stored item, if any, is a well-formed object. */
  predicate ItemValid(item: Option<Blob>) {
    item.Some? ==> BlobValid(item.value)
  }

  class LocalStorage {
    /** The parsed item; `None` while the script has never written it. */
    var item: Option<Blob>

    ghost predicate Valid()
      reads this
    {
      ItemValid(item)
    }

    constructor ()
      ensures Valid() && item == None
    {
      item := None;
    }

    /** `TQROption.getLocalStorageObject`: the stored object, or an empty one while nothing is stored. */
    function GetLocalStorageObject(): (b: Blob)
      reads this
      requires Valid()
      ensures BlobValid(b)
      ensures item.None? ==> b.keys == [] && b.entries == map[]
    {
      ObjectOf(item)
    }

    /** `TQROption.getLocalStorageKeys`: the keys of the stored object, in their order. */
    function GetLocalStorageKeys(): (ks: seq<string>)
      reads this
      requires Valid()
      ensures Distinct(ks)
      ensures forall k :: k in ks <==> k in GetLocalStorageObject().entries
    {
      GetLocalStorageObject().keys
    }

    /** `TQROption.loadObject`: the bag stored under `lvaNumber + "/" + registrationType`, if any. */
    function LoadObject(lvaNumber: string, registrationType: string): (r: Option<Options>)
      reads this
      requires Valid()
      ensures r.Some? <==> Key(lvaNumber, registrationType) in GetLocalStorageKeys()
      ensures r.Some? ==> r.value.Valid() && HasIdentity(r.value) && KeyOf(r.value) == Key(lvaNumber, registrationType)
    {
      Get(GetLocalStorageObject(), Key(lvaNumber, registrationType))
    }

    /** `localStorage.setItem`: the whole object is written back at once. */
    method SetItem(b: Blob)
      requires BlobValid(b)
      modifies this
      ensures Valid() && item == Some(b)
    {
      item := Some(b);
    }
  }

  /** The stored object after `save` of a bag: the bag's JSON form filed under its key, added or replaced. */
  function Saved(b: Blob, o: Options): (r: Blob)
    requires BlobValid(b) && o.Valid() && HasIdentity(o)
    ensures BlobValid(r)
  {
    var j := JsonRoundTrip(o);
    assert HasIdentity(j) && KeyOf(j) == KeyOf(o);
    Put(b, KeyOf(o), j)
  }

  /** The stored object after `remove` of a bag: the entry under its key deleted. */
  function Removed(b: Blob, o: Options): (r: Blob)
    requires BlobValid(b) && HasIdentity(o)
    ensures BlobValid(r)
  {
    Delete(b, KeyOf(o))
  }

  /**
   * After `save`, loading the record's course and type gives the record back
   * in its JSON form, every other key loads what it loaded before, the key is
   * listed, and the listing keeps its order: a key saved before stays in
   * place, a new key comes last.
   */
  lemma SaveThenLoad(b: Blob, o: Options, lvaNumber: string, registrationType: string)
    requires BlobValid(b) && o.Valid() && HasIdentity(o)
    requires KeyOf(o) == Key(lvaNumber, registrationType)
    ensures var r := Saved(b, o);
      && Get(r, Key(lvaNumber, registrationType)) == Some(JsonRoundTrip(o))
      && (forall k :: k != KeyOf(o) ==> Get(r, k) == Get(b, k))
      && KeyOf(o) in r.keys
      && r.keys == if KeyOf(o) in b.keys then b.keys else b.keys + [KeyOf(o)]
  {
  }

  /**
   * After `remove`, the record's key loads nothing and is no longer listed,
   * every other key loads what it loaded before, and the other keys keep their
   * order.
   */
  lemma RemoveThenLoad(b: Blob, o: Options)
    requires BlobValid(b) && HasIdentity(o)
    ensures var r := Removed(b, o);
      && Get(r, KeyOf(o)) == None
      && KeyOf(o) !in r.keys
      && (forall k :: k != KeyOf(o) ==> Get(r, k) == Get(b, k))
      && r.keys == Without(b.keys, KeyOf(o))
  {
  }

  /** Removing a record that was never saved changes nothing. */
  lemma RemoveAbsent(b: Blob, o: Options)
    requires BlobValid(b) && HasIdentity(o) && KeyOf(o) !in b.entries
    ensures Removed(b, o) == b
  {
    WithoutAbsent(b.keys, KeyOf(o));
  }

  /** Saving the same record twice stores what saving it once does. */
  lemma SaveIdempotent(b: Blob, o: Options)
    requires BlobValid(b) && o.Valid() && HasIdentity(o)
    ensures Saved(Saved(b, o), o) == Saved(b, o)
  {
    var j := JsonRoundTrip(o);
    var once := Put(b, KeyOf(o), j);
    assert once.entries[KeyOf(o) := j] == once.entries;
  }
}
