/**
 * The settings bag of `TQROption` as a value: the kinds of values it holds,
 * the registration types, the identity key, the defaults each kind of record
 * starts from, what a round trip through JSON does to a bag, and what
 * `setOptions` makes of a bag.
 */
module OptionValues {

  import opened Wrappers
  import opened Dicts
  import opened Dates
  import opened Localisations

  /** The JavaScript values a settings bag holds. */
  datatype Value = Bool(b: bool) | Num(n: int) | Str(s: string) | DateV(date: JsDate) | Null

  type Options = Dict<Value>

  const TypeLva := "lva"
  const TypeGroup := "group"
  const TypeExam := "exam"
  const TypeNone := "none"

  /** The fields that get no input in the configuration form. */
  const ExcludedOptions: seq<string> := ["lvaNumber", "registrationType", "started"]

  predicate IsExcluded(key: string) {
    key in ExcludedOptions
  }

  /** The identity key of a record, `lvaNumber + "/" + registrationType`. */
  function Key(lvaNumber: string, registrationType: string): (k: string)
    ensures |k| == |lvaNumber| + 1 + |registrationType|
    ensures k[..|lvaNumber|] == lvaNumber && k[|lvaNumber|] == '/' && k[|lvaNumber| + 1..] == registrationType
  {
    lvaNumber + "/" + registrationType
  }

  /**
   * Registration types contain no "/", so the key determines both the course
   * number and the registration type: two records share a key only when they
   * agree on both.
   */
  lemma KeyInjective(lva1: string, type1: string, lva2: string, type2: string)
    requires '/' !in type1 && '/' !in type2
    ensures Key(lva1, type1) == Key(lva2, type2) <==> lva1 == lva2 && type1 == type2
  {
  }

  /** The registration types the script can load a record for. */
  predicate IsLoadableType(registrationType: string) {
    registrationType == TypeLva || registrationType == TypeGroup || registrationType == TypeExam
  }

  /** The course number and registration type a bag names, as text, when it names them. */
  predicate HasIdentity(o: Options) {
    && "lvaNumber" in o.entries && o.entries["lvaNumber"].Str?
    && "registrationType" in o.entries && o.entries["registrationType"].Str?
  }

  /** `getKey()` on a bag. */
  function KeyOf(o: Options): string
    requires HasIdentity(o)
  {
    Key(o.entries["lvaNumber"].s, o.entries["registrationType"].s)
  }

  /** A bag handed to `setOptions` leaves the identity fields as text. */
  predicate KeepsIdentity(o: Options) {
    && ("lvaNumber" in o.entries ==> o.entries["lvaNumber"].Str?)
    && ("registrationType" in o.entries ==> o.entries["registrationType"].Str?)
  }

  /** The names of the settings the `TQROption` constructor fills in, in its order. */
  const BaseKeys: seq<string> := [
    "scriptEnabled", "lvaCheckEnabled", "lvaSemesterCheckEnabled", "openPanel", "autoRegister",
    "autoConfirm", "autoRefresh", "autoOkPressAtEnd", "startAtSpecificTime", "okPressAtEndDelayInMs",
    "delayAdjustmentInMs", "specificStartTime", "lvaSemester", "registrationType", "started", "lvaNumber"]

  /** The constructor sets each of its names once. */
  lemma BaseKeysDistinct()
    ensures Distinct(BaseKeys)
  {
  }

  /** The value the `TQROption` constructor gives the setting `key`. */
  function BaseValue(key: string, now: DateTime): Value
    requires now.Valid()
  {
    if key == "okPressAtEndDelayInMs" then Num(1000)
    else if key == "delayAdjustmentInMs" then Num(300)
    else if key == "specificStartTime" then DateV(ValidDate(GetDate(2024, 9, 9, 0, 0)))
    else if key == "lvaSemester" then Str(CurrentOrNextSemester(now))
    else if key == "registrationType" then Str(TypeNone)
    else if key == "started" then Bool(false)
    else if key == "lvaNumber" then Str("")
    else Bool(true)
  }

  /** The settings the `TQROption` constructor fills in, in its order; `now` is the clock reading. */
  function BaseDefaults(now: DateTime): (o: Options)
    requires now.Valid()
    ensures o.Valid() && o.keys == BaseKeys
  {
    BaseKeysDistinct();
    Dict(BaseKeys, map k | k in BaseKeys :: BaseValue(k, now))
  }

  /** `new TQRLvaOption()`: the group name is the course-registration label. */
  function LvaDefaults(now: DateTime): (o: Options)
    requires now.Valid()
    ensures o.Valid()
  {
    Put(Put(BaseDefaults(now), "nameOfGroup", Str(German.lvaRegistration)), "registrationType", Str(TypeLva))
  }

  /** `new TQRGroupOption()`: an empty group name. */
  function GroupDefaults(now: DateTime): (o: Options)
    requires now.Valid()
    ensures o.Valid()
  {
    Put(Put(BaseDefaults(now), "nameOfGroup", Str("")), "registrationType", Str(TypeGroup))
  }

  /** `new TQRExamOption()`: an empty exam name and the clock reading as the exam date. */
  function ExamDefaults(now: DateTime): (o: Options)
    requires now.Valid()
    ensures o.Valid()
  {
    Put(Put(Put(BaseDefaults(now), "nameOfExam", Str("")), "dateOfExam", DateV(ValidDate(now))), "registrationType", Str(TypeExam))
  }

  /** The defaults of the record kind for a loadable registration type. */
  function DefaultsFor(registrationType: string, now: DateTime): (o: Options)
    requires now.Valid()
    requires IsLoadableType(registrationType)
    ensures o.Valid()
  {
    if registrationType == TypeLva then LvaDefaults(now)
    else if registrationType == TypeGroup then GroupDefaults(now)
    else ExamDefaults(now)
  }

  /** The fields of the base defaults that identify a record and say whether it is running. */
  lemma BaseDefaultsFields(now: DateTime)
    requires now.Valid()
    ensures var o := BaseDefaults(now);
      && Get(o, "lvaNumber") == Some(Str(""))
      && Get(o, "registrationType") == Some(Str(TypeNone))
      && Get(o, "started") == Some(Bool(false))
      && Get(o, "specificStartTime") == Some(DateV(ValidDate(GetDate(2024, 9, 9, 0, 0))))
  {
    assert BaseKeys[11] == "specificStartTime" && BaseKeys[13] == "registrationType";
    assert BaseKeys[14] == "started" && BaseKeys[15] == "lvaNumber";
  }

  /**
   * A fresh record of each kind names no course yet, is not started, carries
   * its own registration type and starts at midnight on 9 September 2024.
   */
  lemma DefaultsIdentity(registrationType: string, now: DateTime)
    requires now.Valid()
    requires IsLoadableType(registrationType)
    ensures var o := DefaultsFor(registrationType, now);
      && HasIdentity(o)
      && o.entries["lvaNumber"] == Str("")
      && o.entries["registrationType"] == Str(registrationType)
      && Get(o, "started") == Some(Bool(false))
      && Get(o, "specificStartTime") == Some(DateV(ValidDate(DateTime(2024, 8, 9, 0, 0, 0, 0))))
  {
    BaseDefaultsFields(now);
    GetDateFields(2024, 9, 9, 0, 0);
  }

  /** What `JSON.stringify` and `JSON.parse` give back for one value: a date becomes its ISO text, an invalid date `null`. */
  function JsonValue(v: Value): (r: Value)
    ensures !v.DateV? ==> r == v
    ensures v.DateV? && v.date.ValidDate? ==> r == Str(ToIsoString(v.date.fields))
    ensures v.DateV? && v.date.InvalidDate? ==> r == Null
  {
    if !v.DateV? then v
    else if v.date.ValidDate? then Str(ToIsoString(v.date.fields))
    else Null
  }

  /** A bag as `JSON.parse` gives it back holds no dates: they were written as text. */
  predicate NoDates(o: Options) {
    forall k :: k in o.entries ==> !o.entries[k].DateV?
  }

  /** A bag after a round trip through JSON: same keys in the same order, every value as `JsonValue` gives it back. */
  function JsonRoundTrip(o: Options): (r: Options)
    requires o.Valid()
    ensures r.Valid() && r.keys == o.keys && NoDates(r)
    ensures forall k :: k in o.entries ==> Get(r, k) == Some(JsonValue(o.entries[k]))
    ensures forall k :: k !in o.entries ==> Get(r, k) == None
  {
    Dict(o.keys, map k | k in o.entries :: JsonValue(o.entries[k]))
  }

  /** The step of `setOptions` after the copy: a start time held as text is read back into a date. */
  function ReviveStartTime(o: Options): (r: Options)
    requires o.Valid()
    ensures r.Valid()
  {
    var v := Get(o, "specificStartTime");
    if v.Some? && v.value.Str? then Put(o, "specificStartTime", DateV(ParseDate(v.value.s))) else o
  }

  /** `this.options` after `setOptions(newOptions)` on a record whose options were `current`. */
  function SetOptionsResult(current: Options, newOptions: Options): (r: Options)
    requires current.Valid() && newOptions.Valid()
    ensures r.Valid()
  {
    ReviveStartTime(Assign(current, newOptions, newOptions.keys))
  }

  /** What `setOptions` does to the start time: the newer of the two values, read back into a date if it is text. */
  function RevivedValue(v: Value): Value {
    if v.Str? then DateV(ParseDate(v.s)) else v
  }

  /**
   * `setOptions` overwrites exactly the keys of `newOptions` with their new
   * values, keeps every other key's value, and turns a start time given as
   * text into a date.
   */
  lemma SetOptionsGet(current: Options, newOptions: Options, k: string)
    requires current.Valid() && newOptions.Valid()
    ensures var r := SetOptionsResult(current, newOptions);
      && (k != "specificStartTime" ==> Get(r, k) == if k in newOptions.entries then Some(newOptions.entries[k]) else Get(current, k))
      && (k == "specificStartTime" ==>
            Get(r, k) == if k in newOptions.entries then Some(RevivedValue(newOptions.entries[k]))
                         else if k in current.entries then Some(RevivedValue(current.entries[k]))
                         else None)
  {
    var ks := newOptions.keys;
    assert forall x :: x in ks ==> x in newOptions.entries;
    AssignGet(current, newOptions, ks, k);
    AssignGet(current, newOptions, ks, "specificStartTime");
  }

  /**
   * `setOptions` never reorders the settings: the old keys keep their places
   * and new keys follow them; when it only overwrites known keys, the order is
   * unchanged.
   */
  lemma SetOptionsKeys(current: Options, newOptions: Options)
    requires current.Valid() && newOptions.Valid()
    ensures var r := SetOptionsResult(current, newOptions);
      && |current.keys| <= |r.keys| && r.keys[..|current.keys|] == current.keys
      && ((forall k :: k in newOptions.entries ==> k in current.entries) ==> r.keys == current.keys)
  {
    var ks := newOptions.keys;
    assert forall x :: x in ks ==> x in newOptions.entries;
    AssignKeysPrefix(current, newOptions, ks);
    var a := Assign(current, newOptions, ks);
    AssignGet(current, newOptions, ks, "specificStartTime");
    if forall k :: k in newOptions.entries ==> k in current.entries {
      AssignKeysSame(current, newOptions, ks);
    }
  }

  /**
   * `TQRExamOption.setOptions` converts `dateOfExam` only in the bag it was
   * given, after the copy: an exam date handed over as text stays text in the
   * record.
   */
  lemma ExamDateStaysText(current: Options, newOptions: Options, text: string)
    requires current.Valid() && newOptions.Valid()
    requires Get(newOptions, "dateOfExam") == Some(Str(text))
    ensures Get(SetOptionsResult(current, newOptions), "dateOfExam") == Some(Str(text))
  {
    SetOptionsGet(current, newOptions, "dateOfExam");
  }

  /** `setOptions` with a bag that keeps the identity fields as text keeps a record's identity. */
  lemma SetOptionsIdentity(current: Options, newOptions: Options)
    requires current.Valid() && newOptions.Valid()
    requires HasIdentity(current) && KeepsIdentity(newOptions)
    ensures HasIdentity(SetOptionsResult(current, newOptions))
    ensures (forall k :: k in newOptions.entries ==> !IsExcluded(k)) ==>
      KeyOf(SetOptionsResult(current, newOptions)) == KeyOf(current)
  {
    SetOptionsGet(current, newOptions, "lvaNumber");
    SetOptionsGet(current, newOptions, "registrationType");
  }
}
