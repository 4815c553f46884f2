/**
 * The pure helpers of `TissQuickRegistration`: which registration a course
 * page is for, the option list of the record selector, and the inputs the
 * configuration form gets for a settings bag.
 */
module Registration {

  import opened Wrappers
  import opened Dicts
  import opened Decimal
  import opened Dates
  import opened Localisations
  import opened OptionValues
  import opened Storage

  /**
   * `getRegistrationType` for the trimmed text `semesterTab` of the selected
   * tab, with the label table chosen for the browser language `language`.
   */
  function GetRegistrationType(language: string, semesterTab: string): (t: string)
    ensures t == TypeLva <==> semesterTab == German.lvaRegistration
    ensures t == TypeGroup <==> semesterTab == German.groups
    ensures t == TypeExam <==> semesterTab == German.exams
    ensures t == TypeNone <==> semesterTab !in [German.lvaRegistration, German.groups, German.exams]
  {
    var labels := LocalisationFor(language);
    GermanLabelsDistinct();
    if semesterTab == labels.lvaRegistration then TypeLva
    else if semesterTab == labels.groups then TypeGroup
    else if semesterTab == labels.exams then TypeExam
    else TypeNone
  }

  /** A record can be loaded for a page exactly when its tab is one of the three known ones. */
  lemma LoadableTab(language: string, semesterTab: string)
    ensures IsLoadableType(GetRegistrationType(language, semesterTab))
        <==> semesterTab in [German.lvaRegistration, German.groups, German.exams]
    ensures '/' !in GetRegistrationType(language, semesterTab)
  {
    var t := GetRegistrationType(language, semesterTab);
    assert t in [TypeLva, TypeGroup, TypeExam, TypeNone];
  }

  /** `s.split("/")`: the pieces between the slashes, at least one. */
  function Split(s: string): (parts: seq<string>)
    ensures |parts| >= 1
    ensures |parts| == 1 <==> '/' !in s
  {
    if s == [] then [""]
    else
      var rest := Split(s[1..]);
      if s[0] == '/' then [""] + rest
      else
        assert '/' in s[1..] ==> '/' in s;
        [[s[0]] + rest[0]] + rest[1..]
  }

  /** The pieces joined again with "/": the inverse of `Split`. */
  function Join(parts: seq<string>): string
    requires |parts| >= 1
  {
    if |parts| == 1 then parts[0] else parts[0] + "/" + Join(parts[1..])
  }

  /** Splitting and joining gives back the text, and no piece holds a "/". */
  lemma {:induction false} SplitJoin(s: string)
    ensures Join(Split(s)) == s
    ensures forall i :: 0 <= i < |Split(s)| ==> '/' !in Split(s)[i]
  {
    if s != [] {
      SplitJoin(s[1..]);
      var rest := Split(s[1..]);
      if s[0] == '/' {
        assert Split(s) == [""] + rest;
        assert s == [s[0]] + s[1..];
      } else {
        assert Split(s)[1..] == rest[1..];
        if |rest| == 1 {
          assert s == [s[0]] + rest[0];
        } else {
          assert rest == [rest[0]] + rest[1..];
          assert Join(rest) == rest[0] + "/" + Join(rest[1..]);
          assert s == [s[0]] + s[1..];
        }
      }
    }
  }

  /** Text with a "/" in front splits into an empty piece and the pieces of the text. */
  lemma {:induction false} SplitAfter(a: string, b: string)
    requires '/' !in a
    ensures Split(a + "/" + b) == [a] + Split(b)
  {
    if a == [] {
      assert ("" + "/" + b)[1..] == b;
    } else {
      SplitAfter(a[1..], b);
      assert (a + "/" + b)[1..] == a[1..] + "/" + b;
      var rest := Split(a[1..] + "/" + b);
      assert rest[0] == a[1..] && rest[1..] == Split(b);
      assert [a[0]] + a[1..] == a;
    }
  }

  /** A key whose course number and type hold no "/" splits back into the two. */
  lemma KeySplit(lvaNumber: string, registrationType: string)
    requires '/' !in lvaNumber && '/' !in registrationType
    ensures Split(Key(lvaNumber, registrationType)) == [lvaNumber, registrationType]
  {
    SplitAfter(lvaNumber, registrationType);
    SplitJoin(registrationType);
  }

  /** The text of the entry the selector offers when the record is not stored yet. */
  const CreateNew := "Create new"

  datatype SelectOption = SelectOption(value: string, text: string)

  /** The record selector: its options in order and the value it shows. */
  datatype Dropdown = Dropdown(entries: seq<SelectOption>, selected: string)

  /**
   * The selector `updateOptionDropdown(selectedKey)` leaves for the stored
   * keys `keys`: one option per key, in order, then a "Create new" option with
   * the empty value when `selectedKey` is not stored; it shows `selectedKey`
   * when stored and the empty value otherwise, and what it shows is always one
   * of its options. `None` stands for a call without argument.
   */
  function DropdownFor(keys: seq<string>, selectedKey: Option<string>): (d: Dropdown)
    ensures var stored := selectedKey.Some? && selectedKey.value in keys;
      && |d.entries| == |keys| + (if stored then 0 else 1)
      && (forall i :: 0 <= i < |keys| ==> d.entries[i] == SelectOption(keys[i], keys[i]))
      && (!stored ==> d.entries[|keys|] == SelectOption("", CreateNew))
      && d.selected == (if stored then selectedKey.value else "")
    ensures exists i :: 0 <= i < |d.entries| && d.entries[i].value == d.selected
  {
    var stored := selectedKey.Some? && selectedKey.value in keys;
    var listed := seq(|keys|, i requires 0 <= i < |keys| => SelectOption(keys[i], keys[i]));
    var d := Dropdown(listed + (if stored then [] else [SelectOption("", CreateNew)]), if stored then selectedKey.value else "");
    assert exists i :: 0 <= i < |d.entries| && d.entries[i].value == d.selected by {
      if stored {
        var i :| 0 <= i < |keys| && keys[i] == selectedKey.value;
        assert d.entries[i].value == d.selected;
      } else {
        assert d.entries[|keys|].value == d.selected;
      }
    }
    d
  }

  /** `updateOptionDropdown(selectedKey)` over the keys of the stored object. */
  method UpdateOptionDropdown(store: LocalStorage, selectedKey: Option<string>) returns (d: Dropdown)
    requires store.Valid()
    ensures d == DropdownFor(ObjectOf(store.item).keys, selectedKey)
  {
    var keys := store.GetLocalStorageKeys();
    var entries: seq<SelectOption> := [];
    var keyExists := false;
    for i := 0 to |keys|
      invariant |entries| == i
      invariant forall j :: 0 <= j < i ==> entries[j] == SelectOption(keys[j], keys[j])
      invariant keyExists <==> selectedKey.Some? && selectedKey.value in keys[..i]
    {
      assert keys[..i + 1] == keys[..i] + [keys[i]];
      if selectedKey.Some? && keys[i] == selectedKey.value {
        keyExists := true;
      }
      entries := entries + [SelectOption(keys[i], keys[i])];
    }
    assert keys[..|keys|] == keys;
    var selected := "";
    if !keyExists {
      entries := entries + [SelectOption("", CreateNew)];
    } else {
      selected := selectedKey.value;
    }
    d := Dropdown(entries, selected);
  }

  /** The kind of `<input>` the form uses for a value. */
  datatype InputKind = Checkbox | TextInput | NumberInput | DateTimeLocal

  /** What the form section holds: its heading, spacers, labels and inputs. */
  datatype Element =
    | Heading
    | Spacer
    | Label(forName: string)
    | Input(kind: InputKind, name: string, value: string, checked: bool)

  /** The section as far as `injectOptions` got, and whether it got through every key. */
  datatype Rendered = Rendered(elements: seq<Element>, complete: bool)

  /**
   * The elements `injectOptions` appends for one key: a checkbox before its
   * label for a boolean, a label before a text, number or date input
   * otherwise, then a spacer; `None` where it throws, on `null`, whose
   * `constructor` cannot be read.
   */
  function FieldElements(key: string, v: Value): (r: Option<seq<Element>>)
    ensures r.None? <==> v.Null?
    ensures r.Some? ==> |r.value| == 3 && r.value[2] == Spacer
  {
    match v
    case Bool(b) => Some([Input(Checkbox, key, if b then "true" else "false", b), Label(key), Spacer])
    case Str(s) => Some([Label(key), Input(TextInput, key, s, false), Spacer])
    case Num(n) => Some([Label(key), Input(NumberInput, key, IntToString(n), false), Spacer])
    case DateV(d) => Some([Label(key), Input(DateTimeLocal, key, DateFormat(d), false), Spacer])
    case Null => None
  }

  /** The input kind `injectOptions` picks for a value that gets one. */
  function KindOf(v: Value): InputKind
    requires !v.Null?
  {
    if v.Bool? then Checkbox
    else if v.Str? then TextInput
    else if v.Num? then NumberInput
    else DateTimeLocal
  }

  /** The section for the keys `ks` of `o`, in their order, skipping the excluded ones. */
  function Render(o: Options, ks: seq<string>): (r: Rendered)
    requires forall k :: k in ks ==> k in o.entries
    ensures |r.elements| >= 2 && r.elements[..2] == [Heading, Spacer]
  {
    if ks == [] then Rendered([Heading, Spacer], true)
    else
      var prev := Render(o, ks[..|ks| - 1]);
      var key := ks[|ks| - 1];
      if !prev.complete || IsExcluded(key) then prev
      else
        var field := FieldElements(key, o.entries[key]);
        if field.None? then Rendered(prev.elements, false)
        else Rendered(prev.elements + field.value, true)
  }

  /** The keys of `ks` the form shows, in order. */
  function VisibleKeys(ks: seq<string>): (r: seq<string>)
    ensures forall k :: k in r <==> k in ks && !IsExcluded(k)
  {
    if ks == [] then []
    else if IsExcluded(ks[|ks| - 1]) then VisibleKeys(ks[..|ks| - 1])
    else
      assert forall k :: k in ks <==> k in ks[..|ks| - 1] || k == ks[|ks| - 1];
      VisibleKeys(ks[..|ks| - 1]) + [ks[|ks| - 1]]
  }

  /** The names of the inputs among `es`, in order. */
  function InputNames(es: seq<Element>): seq<string> {
    if es == [] then []
    else InputNames(es[..|es| - 1]) + (if es[|es| - 1].Input? then [es[|es| - 1].name] else [])
  }

  lemma {:induction false} InputNamesAppend(a: seq<Element>, b: seq<Element>)
    ensures InputNames(a + b) == InputNames(a) + InputNames(b)
  {
    if b == [] {
      assert a + b == a;
    } else {
      InputNamesAppend(a, b[..|b| - 1]);
      assert (a + b)[..|a + b| - 1] == a + b[..|b| - 1];
      assert (a + b)[|a + b| - 1] == b[|b| - 1];
    }
  }

  /** The three elements of a field hold exactly one input, for its key. */
  lemma FieldInputNames(key: string, v: Value)
    requires !v.Null?
    ensures InputNames(FieldElements(key, v).value) == [key]
  {
    var f := FieldElements(key, v).value;
    assert f[..2][..1] == f[..1] && f[..1][..0] == [];
    assert InputNames(f) == InputNames(f[..2]);
    assert InputNames(f[..1]) == if f[0].Input? then [f[0].name] else [];
    assert InputNames(f[..2]) == InputNames(f[..1]) + if f[1].Input? then [f[1].name] else [];
  }

  /** The rendering gets through every key exactly when no shown key holds `null`. */
  lemma {:induction false} RenderCompleteIff(o: Options, ks: seq<string>)
    requires forall k :: k in ks ==> k in o.entries
    ensures Render(o, ks).complete <==> forall k :: k in ks && !IsExcluded(k) ==> !o.entries[k].Null?
  {
    if ks != [] {
      var init := ks[..|ks| - 1];
      assert forall k :: k in init ==> k in ks;
      assert forall k :: k in ks <==> k in init || k == ks[|ks| - 1];
      RenderCompleteIff(o, init);
    }
  }

  /** A complete rendering has one input per shown key, in the order of the keys. */
  lemma {:induction false} RenderNames(o: Options, ks: seq<string>)
    requires forall k :: k in ks ==> k in o.entries
    ensures Render(o, ks).complete ==> InputNames(Render(o, ks).elements) == VisibleKeys(ks)
  {
    if ks != [] {
      var init := ks[..|ks| - 1];
      var key := ks[|ks| - 1];
      assert forall k :: k in init ==> k in ks;
      RenderNames(o, init);
      var prev := Render(o, init);
      if prev.complete && !IsExcluded(key) && !o.entries[key].Null? {
        InputNamesAppend(prev.elements, FieldElements(key, o.entries[key]).value);
        FieldInputNames(key, o.entries[key]);
      }
    } else {
      assert [Heading, Spacer][..1] == [Heading];
    }
  }

  /**
   * What an input shows for a value and reads back untouched: a checkbox its
   * state, a text input the text, a number input the decimal text, a date
   * input the local date text.
   */
  function InputValue(v: Value): Value
    requires !v.Null?
  {
    match v
    case Bool(b) => Bool(b)
    case Str(s) => Str(s)
    case Num(n) => Str(IntToString(n))
    case DateV(d) => Str(DateFormat(d))
  }

  /**
   * Every input of the form is for a shown key of `o`, has the kind its value
   * calls for, and holds the value's text.
   */
  lemma {:induction false} RenderInputs(o: Options, ks: seq<string>)
    requires forall k :: k in ks ==> k in o.entries
    ensures forall e :: e in Render(o, ks).elements && e.Input? ==>
      && e.name in ks && !IsExcluded(e.name) && !o.entries[e.name].Null?
      && e.kind == KindOf(o.entries[e.name])
      && InputData(e) == InputValue(o.entries[e.name])
  {
    if ks != [] {
      var init := ks[..|ks| - 1];
      assert forall k :: k in init ==> k in ks;
      RenderInputs(o, init);
    }
  }

  /** Once a key has thrown, the later keys add nothing: the section stays as it was. */
  lemma {:induction false} RenderStops(o: Options, ks: seq<string>, i: nat)
    requires forall k :: k in ks ==> k in o.entries
    requires i <= |ks| && !Render(o, ks[..i]).complete
    ensures Render(o, ks) == Render(o, ks[..i])
  {
    assert forall k :: k in ks[..i] ==> k in ks;
    if i < |ks| {
      var init := ks[..|ks| - 1];
      assert forall k :: k in init ==> k in ks;
      assert init[..i] == ks[..i];
      RenderStops(o, init, i);
    } else {
      assert ks[..i] == ks;
    }
  }

  /** One more key: `Render` of a longer prefix in terms of the shorter one. */
  lemma RenderStep(o: Options, ks: seq<string>, i: nat)
    requires forall k :: k in ks ==> k in o.entries
    requires i < |ks|
    ensures forall k :: k in ks[..i] ==> k in o.entries
    ensures var prev, key := Render(o, ks[..i]), ks[i];
      var field := FieldElements(key, o.entries[key]);
      Render(o, ks[..i + 1]) ==
        if !prev.complete || IsExcluded(key) then prev
        else if field.None? then Rendered(prev.elements, false)
        else Rendered(prev.elements + field.value, true)
  {
    assert ks[..i + 1][..i] == ks[..i];
    assert forall k :: k in ks[..i] ==> k in ks;
  }

  /**
   * The loop of `injectOptions` over the entries of a bag: the form section
   * it leaves behind, stopping at the first `null`.
   */
  method RenderFields(o: Options) returns (r: Rendered)
    requires o.Valid()
    ensures r == Render(o, o.keys)
    ensures r.complete <==> forall k :: k in o.entries && !IsExcluded(k) ==> !o.entries[k].Null?
    ensures r.complete ==> InputNames(r.elements) == VisibleKeys(o.keys)
  {
    var ks := o.keys;
    RenderCompleteIff(o, ks);
    RenderNames(o, ks);
    var es := [Heading, Spacer];
    for i := 0 to |ks|
      invariant Render(o, ks[..i]) == Rendered(es, true)
    {
      RenderStep(o, ks, i);
      var key := ks[i];
      if !IsExcluded(key) {
        var field := FieldElements(key, o.entries[key]);
        if field.None? {
          RenderStops(o, ks, i + 1);
          return Rendered(es, false);
        }
        es := es + field.value;
      }
    }
    assert ks[..|ks|] == ks;
    r := Rendered(es, true);
  }

  /** What `getDataFromConfigurationSection` reads from an input: a checkbox's state, any other input's text. */
  function InputData(e: Element): Value
    requires e.Input?
  {
    if e.kind == Checkbox then Bool(e.checked) else Str(e.value)
  }

  /** `getDataFromConfigurationSection` on inputs nobody has edited: each input's data under its name, in order. */
  function FormData(es: seq<Element>): (d: Options)
    ensures d.Valid()
    ensures forall k :: k in d.entries ==> k in InputNames(es)
  {
    if es == [] then Empty()
    else
      var init, e := es[..|es| - 1], es[|es| - 1];
      var d := FormData(init);
      if e.Input? then Put(d, e.name, InputData(e)) else d
  }

  /** Each key of the form data holds the data of an input of that name. */
  lemma {:induction false} FormDataFrom(es: seq<Element>, k: string)
    requires k in FormData(es).entries
    ensures exists e :: e in es && e.Input? && e.name == k && FormData(es).entries[k] == InputData(e)
  {
    var init, e := es[..|es| - 1], es[|es| - 1];
    if !(e.Input? && e.name == k) {
      FormDataFrom(init, k);
      var e' :| e' in init && e'.Input? && e'.name == k && FormData(init).entries[k] == InputData(e');
      assert e' in es;
    }
  }

  /**
   * The untouched form reads back exactly the shown keys of `o`, each as its
   * input shows it, and never an identifying or status field.
   */
  lemma UneditedFormData(o: Options, k: string)
    requires o.Valid() && Render(o, o.keys).complete
    ensures var data := FormData(Render(o, o.keys).elements);
      && (k in data.entries <==> k in o.entries && !IsExcluded(k))
      && (k in data.entries ==> !o.entries[k].Null? && data.entries[k] == InputValue(o.entries[k]))
  {
    var es := Render(o, o.keys).elements;
    var data := FormData(es);
    RenderNames(o, o.keys);
    RenderInputs(o, o.keys);
    if k in o.entries && !IsExcluded(k) {
      assert k in VisibleKeys(o.keys);
      FieldsAreInputs(es, k);
    }
    if k in data.entries {
      FormDataFrom(es, k);
    }
  }

  /** A name listed among the inputs is a key of the form data. */
  lemma {:induction false} FieldsAreInputs(es: seq<Element>, k: string)
    requires k in InputNames(es)
    ensures k in FormData(es).entries
  {
    var init, e := es[..|es| - 1], es[|es| - 1];
    if !(e.Input? && e.name == k) {
      FieldsAreInputs(init, k);
    }
  }

  /**
   * Saving the form untouched writes a start time with a four-digit year
   * back as the same minute, its seconds and milliseconds cleared.
   */
  lemma UneditedFormStartTime(o: Options, t: DateTime)
    requires o.Valid() && Render(o, o.keys).complete
    requires Get(o, "specificStartTime") == Some(DateV(ValidDate(t)))
    requires t.Valid() && 1000 <= t.year <= 9999
    ensures Get(SetOptionsResult(o, FormData(Render(o, o.keys).elements)), "specificStartTime")
      == Some(DateV(ValidDate(t.(second := 0, millisecond := 0))))
  {
    var data := FormData(Render(o, o.keys).elements);
    UneditedFormData(o, "specificStartTime");
    var text := DateFormat(ValidDate(t));
    assert data.entries["specificStartTime"] == Str(text);
    SetOptionsGet(o, data, "specificStartTime");
    assert Get(SetOptionsResult(o, data), "specificStartTime") == Some(DateV(ParseDate(text)));
    ParseDateFormat(t);
  }

  /**
   * A number field saved from the untouched form comes back as its decimal
   * text: the inputs hold text, and `setOptions` converts only the start time.
   */
  lemma UneditedFormNumber(o: Options, key: string, n: int)
    requires o.Valid() && Render(o, o.keys).complete
    requires Get(o, key) == Some(Num(n)) && !IsExcluded(key) && key != "specificStartTime"
    ensures Get(SetOptionsResult(o, FormData(Render(o, o.keys).elements)), key) == Some(Str(IntToString(n)))
  {
    var data := FormData(Render(o, o.keys).elements);
    UneditedFormData(o, key);
    SetOptionsGet(o, data, key);
  }
}
