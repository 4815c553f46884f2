# TISS Quick Registration — configuration store, in Dafny

This project models the configuration core of the user script
`src/tiss_quick_registration_script_v2.js` (TISS Quick Registration V2). The
script adds a panel to the course pages of TU Wien's TISS. The panel keeps one
settings record per course and registration type. A record is saved in the
browser's `localStorage` item `TQRSavedOptions` under the key
`lvaNumber + "/" + registrationType`. The panel shows the record as a form, and
a selector lists the stored keys. The Save, Delete and Start buttons change the
record, the storage and the selector.

The model is split into these modules:

- `Wrappers`: `Option` and `Result`.
- `Decimal`: the decimal text of a number and `padStart`.
- `Dicts`: a JavaScript plain object as an ordered dictionary. Its keys are
  kept in insertion order, as `Object.keys` and `Object.entries` report them.
- `Dates`: the parts of `Date` the script relies on, working on broken-down
  local fields.
  - `new Date(y, m, d, h, mi, s, ms)`, which carries out-of-range fields.
  - `getDate` and `getCurrentOrNextSemester`.
  - `getDateFormat`.
  - `toISOString`, the text `JSON.stringify` writes for a date.
  - `new Date(text)` for the two text shapes the script produces.
- `Localisations`: the tab-label tables and the choice between them.
- `OptionValues`: the settings bag as a value.
  - The kinds of values it holds.
  - The identity key.
  - The defaults of each record kind.
  - What a JSON round trip does to a bag.
  - What `setOptions` makes of a bag, as a specification function.
- `Storage`: the `localStorage` item as a class holding the parsed object.
  - `getLocalStorageObject`, `getLocalStorageKeys` and `loadObject`.
  - What `save` and `remove` leave in the object.
- `Records`: `TQROption` as a class whose `options` field its methods update
  in place.
  - The three kind constructors.
  - The setters, `setOptions`, `save`, `remove` and `getKey`.
  - `loadTQROption`, with its specification function `LoadedOptions`.
- `Registration`: the pure helpers of `TissQuickRegistration`.
  - `getRegistrationType`.
  - Splitting a picked key.
  - The selector that `updateOptionDropdown` builds.
  - The form loop of `injectOptions`.
  - `getDataFromConfigurationSection`.
- `Page`: the state `TissQuickRegistration` keeps between events, as a class.
  - The state is the record on show, the form section and the selector.
  - The class has `injectOptions` and the Save, Delete and Start handlers.

The clock, the page text, the browser language and the form data are
parameters. Nothing outside the model is called.

Where a step throws in the source, the model returns an error value instead.
That covers an unknown registration type and a `null` field while rendering.
The handlers also return an error when no record is on show; that state is
not reached in the script (see "## Left out").

## Model

| member | source | states |
|---|---|---|
| Decimal.NatToStringValue | src/tiss_quick_registration_script_v2.js:379 | The decimal text `String(n)` of a natural number reads back as `n`. It starts with `0` only for `n == 0`. |
| Decimal.PaddedValue | src/tiss_quick_registration_script_v2.js:379 | `String(n).padStart(width, '0')` for `n < 10^width` is exactly `width` digits and reads back as `n`. |
| Decimal.NatToStringLength | src/tiss_quick_registration_script_v2.js:379 | The text of `n` has at most `k` digits exactly when `n < 10^k`. This is when `padStart` pads. |
| Dicts.Put | src/tiss_quick_registration_script_v2.js:152 | Assigning `object[k] = v` makes `k` read `v` and leaves every other key as it was. An existing key keeps its place; a new key goes last. |
| Dicts.Delete | src/tiss_quick_registration_script_v2.js:158 | `delete object[k]` removes `k`, leaves every other key's value, and keeps the order of the rest. |
| Dicts.AssignGet | src/tiss_quick_registration_script_v2.js:163-165 | After the copy loop over `ks`, a key of `ks` reads the new value and any other key reads the old one. |
| Dicts.AssignKeysPrefix | src/tiss_quick_registration_script_v2.js:163-165 | The copy loop never reorders: the old keys keep their places at the front. |
| Dicts.AssignKeysSame | src/tiss_quick_registration_script_v2.js:163-165 | Copying only keys the object already has leaves its key order unchanged. |
| Dates.NormalizeDay | src/tiss_quick_registration_script_v2.js:197 | Day overflow and underflow carry into the neighbouring months and years, so the result is always a real calendar day. A day already in range is kept. |
| Dates.MakeDateExact | src/tiss_quick_registration_script_v2.js:197 | `new Date(y, m, d, h, mi, s, ms)` keeps fields that already name a real date and time exactly, when the year is outside 0–99 (a year 0–99 is read as 1900–1999). |
| Dates.GetDate | src/tiss_quick_registration_script_v2.js:196-198 | `getDate` always yields a real date and time; a year 0–99 becomes 1900–1999, as the `Date` constructor does. |
| Dates.GetDateFields | src/tiss_quick_registration_script_v2.js:196-198 | For in-range input with a year outside 0–99, `getDate` stores the month 0-based, keeps the year, day, hour and minute, and sets the seconds and milliseconds to 0. |
| Dates.GetDateCarries | src/tiss_quick_registration_script_v2.js:196-198 | Out-of-range fields carry. 32 December 2024 is 1 January 2025. Day 0 at hour 24 of March is 1 March. Year 50 is 1950, and 29 February of year 0 is 1 March 1900. |
| Dates.SemesterOfMonth | src/tiss_quick_registration_script_v2.js:183-194 | The semester text is the year followed by `S` exactly for months March–June (0-based 2–5), and by `W` exactly for the other months. |
| Dates.DateFormatShape | src/tiss_quick_registration_script_v2.js:378-380 | For a four-digit year, `getDateFormat` gives 16 characters: digits with `-`, `-`, `T`, `:` at positions 4, 7, 10, 13. |
| Dates.ParseDate | src/tiss_quick_registration_script_v2.js:168 | A date that `new Date(text)` accepts has real fields and came from one of the two shapes (16 or 24 characters). |
| Dates.ParseDateFormat | src/tiss_quick_registration_script_v2.js:378-380 | Reading back the `datetime-local` text of a date with a four-digit year gives the same minute, with seconds and milliseconds 0. |
| Dates.ParseIsoString | src/tiss_quick_registration_script_v2.js:167-169 | Reading back the JSON text (`toISOString`) of a date with a year 0–9999 gives exactly that date. |
| Localisations.LocalisationFor | src/tiss_quick_registration_script_v2.js:67-72 | Whatever the browser language, the German label table is chosen. |
| Localisations.GermanLabelsDistinct | src/tiss_quick_registration_script_v2.js:60-64 | The three German tab labels are pairwise different. |
| OptionValues.Key | src/tiss_quick_registration_script_v2.js:146-148 | The key is the course number, one `/`, then the registration type, with lengths adding up. |
| OptionValues.KeyInjective | src/tiss_quick_registration_script_v2.js:146-148 | With types free of `/`, two keys are equal exactly when course numbers and types are equal. |
| OptionValues.BaseKeysDistinct | src/tiss_quick_registration_script_v2.js:78-96 | The sixteen setting names of the `TQROption` constructor are pairwise different. |
| OptionValues.BaseDefaults | src/tiss_quick_registration_script_v2.js:77-97 | The base settings are a well-formed bag whose keys are the constructor's names in its order. |
| OptionValues.BaseDefaultsFields | src/tiss_quick_registration_script_v2.js:90-95 | The base bag has course number `""`, type `none`, `started` false and the start time `getDate(2024, 9, 9, 0, 0)`. |
| OptionValues.DefaultsIdentity | src/tiss_quick_registration_script_v2.js:201-232 | A fresh record of each kind names no course and carries its own registration type. It is not started, and it starts at 2024-09-09 00:00 (month 8 0-based). |
| OptionValues.JsonValue | src/tiss_quick_registration_script_v2.js:99-105 | JSON keeps booleans, numbers, text and `null`. It turns a date into its ISO text and an Invalid Date into `null`. |
| OptionValues.JsonRoundTrip | src/tiss_quick_registration_script_v2.js:99-105 | A bag after `JSON.parse(JSON.stringify(...))` has the same keys in the same order, each value as `JsonValue` gives it, and no other keys. |
| OptionValues.SetOptionsGet | src/tiss_quick_registration_script_v2.js:162-172 | `setOptions` overwrites exactly the keys it is given and keeps every other value. It reads a start time held as text back into a date, whether the text was given or already held. |
| OptionValues.SetOptionsKeys | src/tiss_quick_registration_script_v2.js:162-172 | `setOptions` keeps the old keys in place and adds new keys after them. When it only overwrites known keys, the order is unchanged. |
| OptionValues.ExamDateStaysText | src/tiss_quick_registration_script_v2.js:234-242 | `TQRExamOption.setOptions` converts `dateOfExam` only in its argument, after the copy. An exam date handed over as text stays text in the record. |
| OptionValues.SetOptionsIdentity | src/tiss_quick_registration_script_v2.js:162-172 | `setOptions` with identity fields given as text keeps the record's identity. When no identifying field is given, the key is unchanged. |
| Storage.LocalStorage.GetLocalStorageObject | src/tiss_quick_registration_script_v2.js:107-111 | The stored object is well-formed, and it is the empty object when the item was never written. |
| Storage.LocalStorage.GetLocalStorageKeys | src/tiss_quick_registration_script_v2.js:113-115 | The listed keys are distinct and are exactly the keys of the stored object. |
| Storage.LocalStorage.LoadObject | src/tiss_quick_registration_script_v2.js:117-120 | A bag is found exactly when `lvaNumber/type` is a stored key. The bag found is well-formed and filed under its own identity. |
| Storage.LocalStorage.SetItem | src/tiss_quick_registration_script_v2.js:153 | Writing the item replaces the whole stored object. |
| Storage.Saved | src/tiss_quick_registration_script_v2.js:150-154 | The object after `save` is still well-formed: every record is filed under its own key. |
| Storage.Removed | src/tiss_quick_registration_script_v2.js:156-160 | The object after `remove` is still well-formed. |
| Storage.SaveThenLoad | src/tiss_quick_registration_script_v2.js:150-154 | After `save`, the record's key loads the record's JSON form and every other key loads what it loaded before. The key is listed; an old key keeps its place and a new one comes last. |
| Storage.RemoveThenLoad | src/tiss_quick_registration_script_v2.js:156-160 | After `remove`, the record's key loads nothing and is no longer listed. Every other key loads what it did, in the same order. |
| Storage.RemoveAbsent | src/tiss_quick_registration_script_v2.js:156-160 | Removing a record that was never saved leaves the object as it was. |
| Storage.SaveIdempotent | src/tiss_quick_registration_script_v2.js:150-154 | Saving the same record twice leaves what saving it once does. |
| Records.TQROption.Lva | src/tiss_quick_registration_script_v2.js:201-210 | `new TQRLvaOption()` holds the base settings plus `nameOfGroup` set to the course-registration label, with type `lva`. |
| Records.TQROption.Group | src/tiss_quick_registration_script_v2.js:212-221 | `new TQRGroupOption()` holds the base settings plus an empty `nameOfGroup`, with type `group`. |
| Records.TQROption.Exam | src/tiss_quick_registration_script_v2.js:223-232 | `new TQRExamOption()` holds the base settings plus an empty `nameOfExam`, with the clock reading as `dateOfExam` and type `exam`. |
| Records.TQROption.GetKey | src/tiss_quick_registration_script_v2.js:146-148 | `getKey` is the record's course number and type joined by `/`, and it contains a `/`. |
| Records.TQROption.SetField | src/tiss_quick_registration_script_v2.js:174-181 | A generated setter assigns its key in place (as `Dicts.Put` states) and returns the record itself. |
| Records.TQROption.SetOptions | src/tiss_quick_registration_script_v2.js:162-172 | The copy loop leaves `options` equal to `SetOptionsResult(old options, newOptions)` and returns the record itself. The loop invariant is the copy of the first `i` keys. |
| Records.TQROption.Save | src/tiss_quick_registration_script_v2.js:150-154 | The item afterwards is the previous object with the record's JSON form filed under its key. |
| Records.TQROption.Remove | src/tiss_quick_registration_script_v2.js:156-160 | The item afterwards is the previous object without the record's key. |
| Records.LoadedOptions | src/tiss_quick_registration_script_v2.js:122-144 | Loading succeeds exactly for the types `lva`, `group` and `exam`. On success the bag is well-formed and has the identity `lvaNumber/type` that was asked for. |
| Records.NewOfKind | src/tiss_quick_registration_script_v2.js:130-141 | The kind constructor picked by the type yields a fresh record holding that kind's defaults. |
| Records.LoadTQROption | src/tiss_quick_registration_script_v2.js:122-144 | It returns a fresh record exactly for a loadable type, holding `LoadedOptions` of the stored object. Otherwise it returns the error `"Registration type not valid"`. |
| Records.LoadMissing | src/tiss_quick_registration_script_v2.js:125-141 | With nothing stored, the loaded record is its kind's defaults with the course number set, in the defaults' order. It has identity `lvaNumber/type` and is not started. |
| Records.LoadStored | src/tiss_quick_registration_script_v2.js:130-141 | With a stored bag, each key loads the stored value if the bag has it, and the kind's default otherwise. |
| Records.SaveLoadRoundTrip | src/tiss_quick_registration_script_v2.js:150-172 | Saving a record and loading it gives every saved key back in JSON form, and the start time read back into a date. Missing keys take the kind's default. |
| Records.SaveLoadStartTime | src/tiss_quick_registration_script_v2.js:150-172 | A saved start time with a year 0–9999 loads back as exactly the same date. |
| Records.SaveFrame | src/tiss_quick_registration_script_v2.js:150-154 | Saving a record does not change what any other course and type loads. |
| Records.RemoveThenLoadDefaults | src/tiss_quick_registration_script_v2.js:156-160 | After `remove`, loading the record's course and type gives its kind's defaults with that course number. |
| Registration.GetRegistrationType | src/tiss_quick_registration_script_v2.js:287-301 | The type is `lva`, `group` or `exam` exactly when the tab text is the matching label, and `none` exactly when it is none of them. |
| Registration.LoadableTab | src/tiss_quick_registration_script_v2.js:287-301 | A page's type can be loaded exactly when its tab is one of the three labels. The type never contains `/`. |
| Registration.Split | src/tiss_quick_registration_script_v2.js:454 | `split("/")` gives at least one piece, and exactly one when the text has no `/`. |
| Registration.SplitJoin | src/tiss_quick_registration_script_v2.js:454 | Joining the pieces with `/` gives the text back, and no piece contains a `/`. |
| Registration.KeySplit | src/tiss_quick_registration_script_v2.js:453-455 | A key whose parts have no `/` splits back into its course number and type. |
| Registration.DropdownFor | src/tiss_quick_registration_script_v2.js:547-566 | There is one option per stored key, in order. A "Create new" option with value `""` is added when the selected key is not stored. The selector shows the key if it is stored and `""` otherwise, and always shows one of its options. |
| Registration.UpdateOptionDropdown | src/tiss_quick_registration_script_v2.js:547-566 | The loop with its `keyExists` flag builds exactly `DropdownFor` of the stored keys. |
| Registration.FieldElements | src/tiss_quick_registration_script_v2.js:469-495 | A field gets three elements ending with a spacer. It gets none (the throw) exactly for `null`. |
| Registration.VisibleKeys | src/tiss_quick_registration_script_v2.js:465-467 | The shown keys are exactly the keys that are not `lvaNumber`, `registrationType` or `started`. |
| Registration.Render | src/tiss_quick_registration_script_v2.js:458-496 | The section always starts with its heading and a spacer. |
| Registration.RenderCompleteIff | src/tiss_quick_registration_script_v2.js:464-496 | The loop gets through every key exactly when no shown key holds `null`. |
| Registration.RenderNames | src/tiss_quick_registration_script_v2.js:464-496 | A complete section has exactly one input per shown key, in the bag's order. |
| Registration.RenderInputs | src/tiss_quick_registration_script_v2.js:471-489 | Every input is for a shown, non-`null` key. Its kind is checkbox, text, number or `datetime-local` by the value's type, and it holds the value's text. |
| Registration.RenderStops | src/tiss_quick_registration_script_v2.js:486-493 | Once a key has thrown, later keys add nothing. |
| Registration.RenderFields | src/tiss_quick_registration_script_v2.js:458-496 | The loop leaves exactly `Render` of the bag. It completes exactly when no shown key is `null`, and then lists one input per shown key. |
| Registration.FormData | src/tiss_quick_registration_script_v2.js:349-362 | The data read from the inputs is a well-formed bag whose keys are input names. |
| Registration.FormDataFrom | src/tiss_quick_registration_script_v2.js:349-362 | Each key of the data holds what some input of that name shows (its checked state, or its text). |
| Registration.UneditedFormData | src/tiss_quick_registration_script_v2.js:349-362 | The untouched form reads back exactly the shown keys of the bag, each as its input shows it. |
| Registration.UneditedFormStartTime | src/tiss_quick_registration_script_v2.js:507-508 | Saving the untouched form stores the start time (four-digit year) as the same minute, with seconds and milliseconds cleared. |
| Registration.UneditedFormNumber | src/tiss_quick_registration_script_v2.js:481-484 | Saving the untouched form turns a number setting into its decimal text. |
| Page.Identity | src/tiss_quick_registration_script_v2.js:449-456 | The page's own record is asked for by the page's course and type. A picked value is split at `/`. |
| Page.PickedKeyIdentity | src/tiss_quick_registration_script_v2.js:453-455 | Picking a stored key whose course number has no `/` asks for exactly that course and type. |
| Page.PickedCreateNewFails | src/tiss_quick_registration_script_v2.js:453-455 | Picking "Create new" (value `""`) asks for type `undefined`, and loading it fails. |
| Page.TissQuickRegistration.constructor | src/tiss_quick_registration_script_v2.js:258 | The panel starts with no record, a form section holding only its "Configurations" heading (the injected markup, line 444) and an empty selector. |
| Page.TissQuickRegistration.InjectOptions | src/tiss_quick_registration_script_v2.js:449-500 | A load error is returned and changes nothing. Otherwise the form is rebuilt from `LoadedOptions`. When the form completes, that record is shown and its key is selected. A `null` field leaves the partial form and the previous record and selector. |
| Page.TissQuickRegistration.Show | src/tiss_quick_registration_script_v2.js:458-499 | The form is `Render` of the record. It completes exactly when the record is taken and its key selected. |
| Page.TissQuickRegistration.OnSave | src/tiss_quick_registration_script_v2.js:507-511 | With no record it throws and changes nothing. Otherwise the record becomes `SetOptionsResult(record, data)` and is saved over the previous object, and the selector shows its key. |
| Page.TissQuickRegistration.SaveShown | src/tiss_quick_registration_script_v2.js:508-509 | The record on show is updated from the data and saved, and the selector for its key is returned. |
| Page.TissQuickRegistration.OnDelete | src/tiss_quick_registration_script_v2.js:513-517 | With no record it throws and changes nothing. Otherwise the record's key is removed from the stored object and the selector falls back to "Create new". |
| Page.TissQuickRegistration.Start | src/tiss_quick_registration_script_v2.js:519-531 | With no record it throws. A record that is not the page's is refused and nothing changes. Otherwise the record is marked started, then updated from the data and saved as Save does. |
| Page.SetOptionsThenSave | src/tiss_quick_registration_script_v2.js:508 | `setOptions(data).save()` keeps the record ready to show and stores its updated JSON form. |
| Page.DefaultsKeepStarted | src/tiss_quick_registration_script_v2.js:122-144 | Every record `loadTQROption` yields has a `started` field. |
| Page.MarkedStarted | src/tiss_quick_registration_script_v2.js:526-527 | Marking a record started and copying in form data keeps the mark and the record's identity. |
| Page.StartStoresStarted | src/tiss_quick_registration_script_v2.js:519-531 | After Start, the stored record under the page's key has `started` set to true. |

## Left out

- The DOM, jQuery and CSS are not modelled: the panel markup, labels' text,
  element ids and classes, and the log window with `log`, `error` and
  `success`. The form section is modelled as a list of heading, spacer, label
  and input elements.
- The empty stubs are not modelled. These are the page handlers, the checks,
  the countdown, the button getters and `setSelectValue`. They have no
  behaviour.
- The `// ==UserScript==` header and the top-level `new TissQuickRegistration()`
  are not modelled. The script's constructor is reduced to the panel's initial
  state, and its first `injectOptions()` call is `InjectOptions` with a
  `PageRecord` request.
- `getLVANumber`, `getSemesterTab`, `navigator.language` and the clock are page
  or browser reads. They are parameters.
- The input event of the selector passes the picked value to
  `injectOptions`. That is `InjectOptions` with a `Picked` request.
- Local time is taken to be UTC, so time zones and daylight saving are not
  modelled. The JavaScript time range (±8.64e15 ms) is not modelled either.
- `Dates.ParseDate` accepts only the `datetime-local` shape and the
  `toISOString` shape with a four-digit year. Every other text is an Invalid
  Date, including extended years, other ISO forms and legacy formats.
- Numbers are integers. Fractions, `NaN` and infinities are not modelled; the
  settings only hold integer delays.
- What a user types into the form is not modelled. The handlers take the form
  data as a parameter `data`. The data comes from the form, which has no
  identifying fields, so `KeepsIdentity(data)` is always met.
- `Records.TQROption.SetField`: `initBuildFunctions` makes one setter per key
  the constructor set. Each is modelled as an assignment to an existing key,
  not as a generated method.
- `Records.TQROption.GetKey`: requires both identity fields to be text. The
  source would concatenate the text of any value, but every record the script
  builds has them as text.
- `Page.TissQuickRegistration.OnSave`, `OnDelete` and `Start` with no record on
  show return the error `NoRecord`. The script never reaches that state: if
  the first `injectOptions()` throws (a `none` tab or a `null` field), the
  constructor stops before `hookControlEvents()` (lines 259-260), so no
  handler is ever attached, and once a load succeeds `options` is never set
  back to `null`. The model does not track whether handlers are attached. In the source this is a `TypeError`, whose
  exact message depends on the engine. The same holds for `NullField` in
  `InjectOptions`.
- `Page.TissQuickRegistration.OnSave` and `Start`: that the record on show and
  the form stay the same object is stated by their `modifies` frame (only the
  selector field of the panel may change), not by an `ensures` clause.
- `Registration.UneditedFormStartTime`: stated for four-digit years only,
  because only those give a `datetime-local` text that reads back.
- `Records.SaveLoadStartTime`: stated for years 0–9999 only, because
  `toISOString` writes other years in the six-digit form, which is not parsed
  here.
- `TQRExamOption.setOptions` writes the converted exam date back into its
  argument. The caller's argument is a value here, so that write has no
  visible effect on the model. What the record keeps is stated by
  `OptionValues.ExamDateStaysText`.
- The label-only branch of the form loop (a value that is an object but not a
  date) is not modelled. Such a value cannot arise from the record's values or
  a JSON round trip.
- The English label table exists in the model, but it is never chosen. The
  source picks the German table in both branches.
