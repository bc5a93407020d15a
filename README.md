# Medication tracker: a verified model of its reminder and taken-state logic

The tracker is a single-page medication reminder. The user registers medications. Each has a name, a dosage, the times of day (`HH:MM`) it is due, a colour tag, an active flag and a *taken-map*. The taken-map is keyed `<day>-<HH:MM>` and records which doses were marked taken. The page lists the next upcoming doses and flags the overdue ones. While it is open, a once-a-minute pass notifies the user of doses due at the current minute.

This project models that logic in Dafny:

- `js_strings.dfy` (module `JsStrings`): the JavaScript string operations the logic depends on. These are `trim` (form validation) and the relational `<` on strings (the overdue test, and the comparator of the sort).
- `clock.dfy` (module `Clock`): the current-time string `String(h).padStart(2, "0") + ":" + String(m).padStart(2, "0")`. Its lemmas show that comparing two such strings lexically compares the times of day.
- `medication.dfy` (module `Medications`): the `Medication` record and the pure values the handlers build. These are the toggled list (`map` plus object spread), the list after a delete (`filter`), the validated new record, and the time-slot buffer operations.
- `tracker.dfy` (module `Tracker`): the component as a class. Its fields are the component's state (`medications`, the form buffers `newMedName`, `newMedDosage`, `newMedTimes`, and `showAddForm`). Each handler is a method that replaces fields, as the state setters do.
- `reminders.dfy` (module `Reminders`): `getUpcomingMedications` as a method with the source's nested loops followed by a stable sort by time, the `slice(0, 3)` of the render, and the selection made by the reminder pass (also nested loops).

The clock is an input. `today` stands for `toDateString()`, `now` for the current `HH:MM` string, `freshId` for `Date.now().toString()`, and `colorPick` for the random index into the colour list. Each is a parameter of the operation that reads it.

The reminder pass reads `taken[today]` (`src/app/page.tsx:98`). `toggleTaken` writes `taken[today + "-" + time]` (`src/app/page.tsx:188`). The model follows the code as written, so marking a dose taken never stops its reminder. `Reminders.ToggleTakenNeverSilencesReminder` proves this for every input; see "## Findings".

## Model

| member | source | states |
|---|---|---|
| `JsStrings.TrimStart` | src/app/page.tsx:160 | the result is a suffix of the input, the dropped prefix is all whitespace, and the result does not start with whitespace |
| `JsStrings.TrimEnd` | src/app/page.tsx:160 | the result is a prefix of the input, the dropped suffix is all whitespace, and the result does not end with whitespace |
| `JsStrings.TrimStartEndStrips` | src/app/page.tsx:160 | stripping the leading, then the trailing whitespace leaves a middle slice of `s` with only whitespace before and after it |
| `JsStrings.Trim` | src/app/page.tsx:160 | `trim()` is `s` with a blank prefix (the one `TrimStart` drops) and a blank suffix removed, and is empty or bounded by non-whitespace on both ends |
| `JsStrings.TrimEmptyIffBlank` | src/app/page.tsx:160 | `!s.trim()` holds exactly when every character of `s` is whitespace |
| `JsStrings.LexLess` | src/app/page.tsx:233 | JavaScript `<` on strings; the lemmas below state that it is a strict total order, and `Clock.ClockOrder` that it is chronological on clock strings |
| `JsStrings.LexLessIrreflexive` | src/app/page.tsx:233 | no time string is before itself |
| `JsStrings.LexLessTransitive` | src/app/page.tsx:240 | string `<` is transitive |
| `JsStrings.LexLessTotal` | src/app/page.tsx:240 | any two different strings are ordered one way or the other |
| `JsStrings.LexLessAsymmetric` | src/app/page.tsx:240 | two strings are never each before the other |
| `JsStrings.LexLessAppend` | src/app/page.tsx:233 | concatenations with equal-length first parts compare first parts, then second parts |
| `JsStrings.LexLeqTransitive` | src/app/page.tsx:240 | "not after" is transitive, so the sort's comparator is a total preorder |
| `Clock.DecimalString` | src/app/page.tsx:91 | `String(n)` is one character below 10 and has no leading zero from 10 up |
| `Clock.DecimalStringDigits` | src/app/page.tsx:91 | every character of `String(n)` is a decimal digit |
| `Clock.DecimalStringValue` | src/app/page.tsx:91 | reading the digits of `String(n)` back gives `n` (round trip) |
| `Clock.PadStart` | src/app/page.tsx:91 | `padStart` yields length max(length, width), the input as its suffix and fill characters before it |
| `Clock.TwoDigits` | src/app/page.tsx:223 | `String(n).padStart(2, "0")`; `Clock.TwoDigitsOf` states its value |
| `Clock.TwoDigitsOf` | src/app/page.tsx:223 | below 100 the padded rendering is exactly the tens digit then the units digit |
| `Clock.DigitPairOrder` | src/app/page.tsx:233 | two-digit renderings compare, and are equal, as the numbers they render do |
| `Clock.ClockString` | src/app/page.tsx:223 | the current-time string is hour digits, `:`, minute digits |
| `Clock.ClockDigitsOrder` | src/app/page.tsx:233 | the lexical order of two `HH:MM` digit strings is the order of their minutes of the day |
| `Clock.ClockOrder` | src/app/page.tsx:233 | `time < currentTimeStr` between clock strings holds exactly when the first time of day is earlier, so the overdue flag is chronological |
| `Clock.ClockDigitsInjective` | src/app/page.tsx:98 | equal `HH:MM` digit strings have equal hour and minute |
| `Clock.ClockInjective` | src/app/page.tsx:98 | `time === currentTimeStr` between clock strings holds exactly for the same hour and minute |
| `Medications.Medication` | src/app/page.tsx:7-15 | the record: id, name, dosage, times, colour tag, taken-map from `<day>-<HH:MM>` keys to booleans, active flag |
| `Medications.Colors` | src/app/page.tsx:17-24 | the six colour tags, in the source's order |
| `Medications.TakenKey` | src/app/page.tsx:188 | the key `${today}-${time}` (also built at line 231); `Medications.TakenKeyInjective` and `Medications.TakenKeyIsNotDay` state what it guarantees |
| `Medications.Taken` | src/app/page.tsx:98 | JavaScript truthiness of `taken[key]`, an absent key reading as `undefined` (the same read at lines 193 and 232) |
| `Medications.TakenKeyInjective` | src/app/page.tsx:188 | on one day, different times get different taken-map keys |
| `Medications.TakenKeyIsNotDay` | src/app/page.tsx:188 | a dose key is never the bare day string the reminder guard reads |
| `Medications.ToggleDose` | src/app/page.tsx:189-195 | only the `taken` field changes; the key becomes present with the negation of its old truthiness; every other entry is unchanged |
| `Medications.Toggled` | src/app/page.tsx:183-200 | same length; medications with another id are unchanged; each one with the id differs only at the key `today-time`, whose truthiness flips |
| `Medications.ToggleTwiceRestores` | src/app/page.tsx:193 | toggling twice restores each record except that the key is now present with its old truthiness (absent ends as `false`) |
| `Medications.WithoutId` | src/app/page.tsx:202-203 | the result holds exactly the medications whose id differs from `medId` |
| `Medications.WithoutIdAppend` | src/app/page.tsx:203 | the filter acts on each part of a list separately, so the relative order is kept |
| `Medications.WithoutIdUnchanged` | src/app/page.tsx:203 | deleting an id no medication has changes nothing |
| `Medications.WithoutIdIdempotent` | src/app/page.tsx:203 | deleting the same id twice is deleting it once |
| `Medications.FormComplete` | src/app/page.tsx:160 | the add form's guard; `Medications.FormCompleteIff` states its meaning |
| `Medications.FormCompleteIff` | src/app/page.tsx:160-163 | the form is accepted exactly when name and dosage each hold a non-whitespace character and no slot is `""` |
| `Medications.FilledTimes` | src/app/page.tsx:169 | `filter(t => t)` keeps exactly the non-empty slots |
| `Medications.FilledTimesKeepsFilled` | src/app/page.tsx:169 | once no slot is empty, the filter returns the slots unchanged |
| `Medications.NewMedication` | src/app/page.tsx:165-173 | the record `addMedication` builds; `Medications.NewMedicationFromForm` states its fields |
| `Medications.NewMedicationFromForm` | src/app/page.tsx:165-173 | the record built from an accepted form has the given id, name, dosage, colour and exactly the form's times; its taken-map is empty and it is active |
| `Medications.AppendSlot` | src/app/page.tsx:207-209 | one more slot, `""` last, the others unchanged |
| `Medications.SetSlot` | src/app/page.tsx:211-215 | only the slot at `index` changes, to `value` |
| `Medications.DropSlot` | src/app/page.tsx:218 | `filter((_, i) => i !== index)`; `Medications.DropSlotRemovesOne` states its closed form |
| `Medications.DropSlotMisses` | src/app/page.tsx:218 | an index outside the list removes nothing |
| `Medications.DropSlotAt` | src/app/page.tsx:218 | an index inside the list removes exactly that slot, keeping the others in order |
| `Medications.DropSlotRemovesOne` | src/app/page.tsx:217-219 | `filter((_, i) => i !== index)` removes exactly the slot at `index`, or nothing when the index is outside the list |
| `Tracker.MedicationTracker.constructor` | src/app/page.tsx:27-37 | initial state: no medications, the form closed, with empty name and dosage and one empty slot |
| `Tracker.MedicationTracker.AddMedication` | src/app/page.tsx:159-181 | rejects an incomplete form and leaves all state unchanged; otherwise appends exactly one record (form times, empty taken-map, active) and resets the form to `""`, `""`, `[""]`, closed |
| `Tracker.MedicationTracker.ResetForm` | src/app/page.tsx:176-179 | after an add the buffers are `""`, `""`, `[""]` and the form is closed; no other field changes |
| `Tracker.MedicationTracker.ToggleTaken` | src/app/page.tsx:183-200 | the list becomes the toggled list; no other field changes |
| `Tracker.MedicationTracker.DeleteMedication` | src/app/page.tsx:202-205 | the list keeps exactly the medications with another id; no other field changes |
| `Tracker.MedicationTracker.AddTimeSlot` | src/app/page.tsx:207-209 | `""` is appended to the slots; nothing else changes |
| `Tracker.MedicationTracker.UpdateTimeSlot` | src/app/page.tsx:211-215 | only slot `index` is replaced; nothing else changes |
| `Tracker.MedicationTracker.RemoveTimeSlot` | src/app/page.tsx:217-219 | slot `index` is removed and the rest keep their order, or nothing happens for an index outside the list |
| `Reminders.Slot` | src/app/page.tsx:226 | an upcoming entry `{ med, time, isPast }` |
| `Reminders.PendingOf` | src/app/page.tsx:230-237 | what the inner loop pushes for one medication; `Reminders.PendingOfMembers` states which entries |
| `Reminders.Pending` | src/app/page.tsx:228-238 | what the loops push before the sort; `Reminders.PendingMembers` states which entries |
| `Reminders.PendingOfMembers` | src/app/page.tsx:230-237 | the inner loop pushes exactly the untaken times of the medication, with `isPast` equal to `time < now` |
| `Reminders.PendingMembers` | src/app/page.tsx:228-238 | the loops collect exactly the untaken doses of active medications, each flagged overdue iff its time is before `now` |
| `Reminders.Insert` | src/app/page.tsx:240 | inserting adds exactly one entry (as a multiset) |
| `Reminders.SortByTime` | src/app/page.tsx:240 | the sort is a permutation of its input |
| `Reminders.InsertSorted` | src/app/page.tsx:240 | inserting into a time-sorted list keeps it sorted |
| `Reminders.SortByTimeSorted` | src/app/page.tsx:240 | the sorted list is non-decreasing by time |
| `Reminders.InsertWithTime` | src/app/page.tsx:240 | an inserted entry goes ahead of the entries with the same time |
| `Reminders.SortByTimeStable` | src/app/page.tsx:240 | for every time, the entries with that time keep their relative order (stable sort) |
| `Reminders.UpcomingMedications` | src/app/page.tsx:221-241 | the result is sorted by time and is a permutation of what the loops collect; it holds exactly the upcoming doses; ties keep loop order |
| `Reminders.Shown` | src/app/page.tsx:402 | `slice(0, 3)` is the first min(3, n) entries |
| `Reminders.ShownAreEarliest` | src/app/page.tsx:402 | on the sorted list no hidden entry is earlier than a shown one |
| `Reminders.Dose` | src/app/page.tsx:98-106 | one notification of the pass: the medication and the time it fires for |
| `Reminders.GuardKey` | src/app/page.tsx:98 | the taken-map key the reminder guard reads: `today` as written, or the per-dose key for the corrected guard |
| `Reminders.DueOf` | src/app/page.tsx:97-98 | what the inner reminder loop fires for one medication; `Reminders.DueOfMembers` states which doses |
| `Reminders.DueWith` | src/app/page.tsx:94-98 | what the reminder pass fires, in loop order; `Reminders.DueWithMembers` states which doses |
| `Reminders.DueOfMembers` | src/app/page.tsx:97-98 | the inner reminder loop fires exactly for the times equal to `now` whose guard entry is not truthy |
| `Reminders.DueWithMembers` | src/app/page.tsx:94-98 | a dose fires exactly when its medication is active, its time is equal to `now` and its guard entry is not truthy |
| `Reminders.CheckReminders` | src/app/page.tsx:89-110 | the pass selects, in loop order, exactly the doses of active medications at time `now` for which `taken[today]` is not truthy |
| `Reminders.DueOfIdsAgree` | src/app/page.tsx:98 | medications that agree on id and on `taken[today]` get the same notifications |
| `Reminders.DueWithIdsAgree` | src/app/page.tsx:94-98 | lists that agree pointwise on id, active, times and `taken[today]` get the same notifications |
| `Reminders.ToggleTakenNeverSilencesReminder` | src/app/page.tsx:98 | after any `toggleTaken` the reminder pass fires for the same medications and times as before |
| `Reminders.ReminderAfterTakenExample` | src/app/page.tsx:98 | a dose at 08:00 marked taken leaves the upcoming list, yet the pass at 08:00 still fires for it |
| `Reminders.ToggleTakenSilencesPerSlotReminder` | src/app/page.tsx:98 | with the guard reading the per-dose key, a dose marked taken no longer fires |

## Left out

- Rendering (JSX, CSS classes) of `src/app/page.tsx:245-571`: no behaviour beyond the `slice(0, 3)` modelled by `Reminders.Shown`.
- The `localStorage` load and save (`src/app/page.tsx:40-44`, `71-75`) and their JSON round trip: browser storage and serialisation. The save is skipped while the list is empty.
- The notification and toast side effects of the reminder pass, the `notificationsEnabled` guard (`src/app/page.tsx:87`), `toggleNotifications`, the install prompt and `handleInstallClick`: platform APIs and asynchronous permission flows. Only the selection of the reminder pass is modelled.
- Timers and effect lifecycles (`setInterval`, `clearInterval`): `today`, `now` and the clock that supplies them are parameters. `toggleTaken` and `getUpcomingMedications` take `today` from the displayed clock state (`src/app/page.tsx:184`, `224`), and `getUpcomingMedications` takes `now` from a fresh `Date` (`src/app/page.tsx:222`). The reminder pass takes both from one fresh `Date` (`src/app/page.tsx:90-92`). The model does not relate `today` and `now` in either place.
- The buttons that open and close the form (`setShowAddForm` outside `addMedication`): plain UI toggles.
- No handler deactivates a medication, so `active` is only read; records are created active.
- `JsStrings.LexLess`: compares Unicode code points. JavaScript compares UTF-16 code units, which differ only for characters outside the Basic Multilingual Plane.
- `Reminders.SortByTime`: `localeCompare` is modelled as the same code-point order. It agrees with it on the zero-padded `HH:MM` digit strings the time inputs produce.
- `Tracker.MedicationTracker.UpdateTimeSlot`: requires `index < |newMedTimes|`. Its only caller is the input rendered for that slot. JavaScript would grow the array with holes for a larger index.
- `Medications.Taken`: the taken-map is a map from string to bool. Keys inherited from a JavaScript object's prototype (such as `constructor`) are not modelled. The keys the code uses are day-time strings.
- `Clock.DecimalString`: its contract gives a non-empty result, a single character below 10 and no leading zero from 10 up, but not the characters themselves; `Clock.DecimalStringDigits` states that every character is a decimal digit and `Clock.DecimalStringValue` that the digits read back as `n`, which together fix the characters, and `Clock.TwoDigitsOf` gives the padded rendering below 100 directly.
- The notification tag `med.id + time` (`src/app/page.tsx:102`) is kept as the pair of medication id and time (`Reminders.DoseIds`); the concatenated string is not built.

## Findings

| source | as written | input that shows it | evidently intended | confidence | as-written member | corrected member |
|---|---|---|---|---|---|---|
| src/app/page.tsx:98 | the reminder guard reads `med.taken[today]`, a key `toggleTaken` (line 188) never writes | medication `"1"` due at `"08:00"`, toggled taken on `"Thu Oct 15 2026"`; the pass at `"08:00"` that day still selects it | the guard reads the per-dose key `` `${today}-${time}` ``, so a dose marked taken is not notified again | not executed; proved for all inputs | `Reminders.ToggleTakenNeverSilencesReminder`, `Reminders.ReminderAfterTakenExample` | `Reminders.ToggleTakenSilencesPerSlotReminder` (on `Reminders.DueWith` with the per-dose guard key) |

`Reminders.CheckReminders` models the pass as written. `Reminders.DueWith` takes the guard key as a choice (`Reminders.GuardKey`): the code's `today`, or the per-dose key. The corrected selection is `DueWith(…, perSlot := true)`.
