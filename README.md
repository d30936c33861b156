# Audio-Labeler core, modelled in Dafny

Audio-Labeler is a browser tool for labelling speech. The user loads audio files, drags over
the waveform to mark regions, gives the regions speakers, and edits their bounds as
`HH:MM:SS.mmm` text. This project models the logic inside its React components and proves
properties of it:

- **The time codec** (`time_codec.dfy`, module `TimeCodec`). It covers `formatTimeFull` and
  `parseTimeFull` of `components/RegionList.js`, and the unguarded `formatTimeFull` of
  `src/utils/timeFormat.js`, which `src/app/WaveformLabeler.js` copies inline.
  - Time is a natural number of milliseconds.
  - NaN, `null` and `undefined` are the first two cases of `TimeValue` (`undefined` is read as
    NaN).
  - The parser returns `None` where the code returns NaN.
  - The round trip holds in exact milliseconds: `ParseFull(FormatFull(t)) == Some(t)` for
    every `t` below 100 hours, and every canonical text that the formatter can produce is
    parsed back to itself. The program computes in doubles, where this can fail (see
    "## Left out").
- **The region list** (`region_list.dfy`, module `RegionList`). It covers the display order,
  which is a stable sort by start, and the edit state machine (`handleEditClick`,
  `handleEditSave`, `handleEditCancel`) as the class `Editor`.
- **The regions plugin** (`regions_plugin.dfy`, module `Plugin`). It models the WaveSurfer
  regions plugin as the components see it: a collection of `{id, start, end, options}` with
  add, remove and set-options. Ids come from a counter. Each new id is the counter's value and
  the counter only grows, so no present or past region has had it, which is how the plugin's
  random ids behave.
- **The labeler** (`waveform_labeler.dfy`, module `WaveformLabeler`). It models the component
  of `src/app/WaveformLabeler.js` as the class `Labeler`. It covers:
  - the clamped pointer time;
  - the drag that creates regions of at least one second;
  - the colouring that marks the selected region;
  - the two Delete/Backspace handlers;
  - the speaker roster.

  The class invariant `Valid()` says:
  - a drag is in progress exactly when it has an origin;
  - the roster is `Speaker A`, `Speaker B`, … in order;
  - the selected speaker is in the roster;
  - a selected region is one the plugin has;
  - every region wears the colour the selection gives it.

  Every handler keeps this invariant.
- **The region hook** (`use_regions.dfy`, module `UseRegions`). It models
  `src/hooks/useRegions.js`, the region-to-speaker map and the restyling pass, as the class
  `RegionsHook`.
- **The file session** (`file_session.dfy`, module `FileSession`). It models the
  per-file state that `src/app/hooks/useAudioFiles.js` keeps, which `page.js` writes out
  again: the file records, the selected index and the saved flags. It includes the page's
  previous/next navigation. One class `Session` models both files, since their handlers are
  the same.

Two behaviours of the code worth knowing:

- A newly dragged region is not selected and starts no playback:
  `src/app/WaveformLabeler.js:71-114` only adds it, in the idle colour, and leaves the
  selection as it was.
- Leaving the waveform cancels a drag: `src/app/WaveformLabeler.js:145-149` clears `hover`,
  `dragStart` and `isDragging`.

`FileSession.ShowGuide`, `FileSession.DisablePrev` and `FileSession.DisableNext` are the
source's own expressions. What they mean is stated by the lemmas about them:
`UploadSelectsLast`, `PrevEnabledMoves` and `NextEnabledMoves`.

## Model

| member | source | states |
|---|---|---|
| TimeCodec.FormatFull | components/RegionList.js:4-12 | NaN, `null` and `undefined` print as `00:00:00.000` |
| TimeCodec.Decimal | components/RegionList.js:11 | `toString()` of a number is all digits, one digit exactly below 10, at most two below 100 and at most three below 1000 |
| TimeCodec.DecimalValue | components/RegionList.js:21 | the digits of `n.toString()` read back as `n` |
| TimeCodec.PadStart | components/RegionList.js:11 | `padStart(w, '0')` gives at least `w` characters, ends with the input, and has only zeros in front |
| TimeCodec.FieldValue | components/RegionList.js:11 | a padded field is all digits, at least as wide as asked, and reads back as its number |
| TimeCodec.Decompose | components/RegionList.js:6-11 | a time of `h` hours, `m < 60` minutes, `s < 60` seconds and `ms < 1000` milliseconds prints as exactly those four padded fields: minutes and seconds wrap at 60, and the fraction is truncated |
| TimeCodec.FieldsAgree | src/utils/timeFormat.js:2-5 | the hour, minute and second fields taken from the time directly equal those taken from the whole seconds |
| TimeCodec.FormatFields | src/utils/timeFormat.js:2-6 | for every time, the text has `:` `:` `.` at fixed distances from its end. Its hour digits read `floor(t / 1 h)`, its two-digit minutes and seconds read `floor((t mod 1 h) / 1 min) < 60` and `floor(t mod 1 min) < 60`, and its three-digit fraction reads `t mod 1 s` |
| TimeCodec.FormatCanonical | src/utils/timeFormat.js:6 | below 100 hours both formatters print exactly twelve characters, `dd:dd:dd.ddd` |
| TimeCodec.FormatUnguarded | src/utils/timeFormat.js:1-7 | NaN (and `undefined`) prints `NaN:NaN:NaN.NaN`, and `null` prints the zero clock, as `src/app/WaveformLabeler.js:6-12` does too; its text for a time is stated by `FormatsAgree` and `FormatFields` |
| TimeCodec.FormatsAgree | src/utils/timeFormat.js:1-7 | the unguarded formatter prints the same text as the guarded one for every time, and for `null`; it differs exactly for NaN |
| TimeCodec.FormatWidensAtHundredHours | components/RegionList.js:18-19 | from 100 hours on, the formatted text has three or more hour digits and does not parse |
| TimeCodec.PadFraction | components/RegionList.js:17 | the replacement only appends zeros, and at most two |
| TimeCodec.ParseFull | components/RegionList.js:14-22 | a non-empty text that parses has 10 to 12 characters, with `:` at positions 2 and 5 and `.` at position 8 |
| TimeCodec.ParseCanonical | components/RegionList.js:18-21 | a text of the exact shape `dd:dd:dd.ddd` parses to `h·1 h + m·1 min + s·1 s + ms` |
| TimeCodec.ClockParses | components/RegionList.js:18-21 | the printed fields of a time below 100 hours have the exact shape and parse back to that time |
| TimeCodec.ShortFraction | components/RegionList.js:17 | a fraction shortened by trailing zeros to two or one digits parses like the full three digits |
| TimeCodec.ParseExamples | components/RegionList.js:15-19 | `00:00:01.5` parses to 1500 ms, `00:00:01` (no fraction) does not parse, and the empty text parses to 0 |
| TimeCodec.RoundTrip | components/RegionList.js:4-22 | for every time below 100 hours, parsing the formatted text gives the time back |
| TimeCodec.CanonicalRoundTrip | components/RegionList.js:4-22 | a text of the exact shape, with minutes and seconds below 60, parses, and formatting the result gives the same text back |
| TimeCodec.CanonicalIsClock | components/RegionList.js:18-20 | every text of the exact shape is the padded clock text of its own four fields |
| RegionList.Insert | components/RegionList.js:113 | inserting adds exactly that region: the multiset grows by it and the length by one |
| RegionList.SortByStart | components/RegionList.js:113 | the display order is sorted by start and is a permutation of the input, which is not changed |
| RegionList.InsertSorted | components/RegionList.js:113 | inserting into a sorted list keeps it sorted |
| RegionList.InsertStable | components/RegionList.js:113 | an inserted region goes before every region with the same start |
| RegionList.SortStable | components/RegionList.js:113 | regions that share a start are displayed in their input order |
| RegionList.CheckEdit | components/RegionList.js:50-55 | the edit is accepted exactly when both fields parse and start < end; it then carries the two parsed values |
| RegionList.UntouchedEditSaves | components/RegionList.js:41-57 | opening a region below 100 hours for editing and saving straight away gives the region its own bounds |
| RegionList.LongRegionRefused | components/RegionList.js:45-55 | a region that ends at or after 100 hours cannot be saved without retyping, since its printed end does not parse |
| RegionList.EmptyStartIsZero | components/RegionList.js:15 | an empty start field is accepted exactly when the end parses to more than zero |
| RegionList.MissingFractionRefused | components/RegionList.js:49-55 | start `00:00:01` with end `00:00:00.5` is refused, because the start does not parse |
| RegionList.Editor.constructor | components/RegionList.js:35-39 | nothing is being edited, both bounds are 0 and both fields are empty |
| RegionList.Editor.EditClick | components/RegionList.js:41-47 | opens the region: its id, its bounds, and both bounds formatted into the fields |
| RegionList.Editor.SetStartText | components/RegionList.js:152 | the start field takes the typed text and nothing else changes |
| RegionList.Editor.SetEndText | components/RegionList.js:161 | the end field takes the typed text and nothing else changes |
| RegionList.Editor.EditSave | components/RegionList.js:49-60 | a refused edit alerts, calls nothing and keeps the editor open. An accepted one calls `onEditSave(id, start, end)` once (when the callback is given) with the parsed values, and closes the editor |
| RegionList.Editor.EditCancel | components/RegionList.js:62-64 | closes the editor and keeps the fields |
| Plugin.Without | src/app/WaveformLabeler.js:283 | removal leaves no more regions than before, and only regions that were there with another id |
| Plugin.WithoutKeepsOthers | src/app/WaveformLabeler.js:283 | every region with another id survives the removal |
| Plugin.WithoutAbsent | src/app/WaveformLabeler.js:283 | removing an id no region has changes nothing |
| Plugin.WithoutCount | src/app/WaveformLabeler.js:283 | with distinct ids, removing a present id removes exactly one region |
| Plugin.WithoutDistinct | src/app/WaveformLabeler.js:283 | removal keeps the ids distinct |
| Plugin.WithoutAppend | src/app/WaveformLabeler.js:283 | removal from two lists joined is removal from each, joined, so the surviving regions keep their order |
| Plugin.RegionsPlugin.constructor | src/app/WaveformLabeler.js:54-58 | a new plugin has no regions |
| Plugin.RegionsPlugin.AddRegion | src/app/WaveformLabeler.js:84-91 | appends exactly one region `[start, end]` under an id no present region has, namely the counter's value, and advances the counter by one, so no past region had it either; the ids stay distinct |
| Plugin.RegionsPlugin.RemoveRegion | src/app/WaveformLabeler.js:283 | the new regions are `Without` of the old: the region with that id goes, the others stay in their order (`WithoutAppend`), the counter is unchanged and the ids stay distinct |
| Plugin.RegionsPlugin.SetStyleAt | src/app/WaveformLabeler.js:252-256 | rewrites the options of one region and nothing else |
| WaveformLabeler.PointerTime | src/app/WaveformLabeler.js:31-40 | the pointer time lies in `[0, duration]`. It is 0 without a mounted waveform, and otherwise the pointed-at time clamped at both ends |
| WaveformLabeler.PointerTimeMonotone | src/app/WaveformLabeler.js:38 | the clamp keeps the order of pointer positions |
| WaveformLabeler.DragInterval | src/app/WaveformLabeler.js:75-81 | a release makes an interval exactly when the two times are at least `minRegionLength` (1 s) apart. It is then ordered, at least 1 s long, and has the two times as its ends |
| WaveformLabeler.DragIntervalSymmetric | src/app/WaveformLabeler.js:75-76 | dragging left or right over the same span gives the same interval |
| WaveformLabeler.Recolored | src/app/WaveformLabeler.js:248-258 | every region gets the selected colour if it is the selection and the idle colour otherwise; ids and bounds are untouched |
| WaveformLabeler.RecoloredIdempotent | src/app/WaveformLabeler.js:251-257 | re-running the colour effect on correctly coloured regions changes nothing |
| WaveformLabeler.AtMostOneSelected | src/app/WaveformLabeler.js:251-257 | with distinct ids, at most one region wears the selected colour |
| WaveformLabeler.NoneSelectedAllIdle | src/app/WaveformLabeler.js:251-257 | with no selection every region wears the idle colour |
| WaveformLabeler.SpeakerName | src/app/WaveformLabeler.js:374-375 | a new name is `Speaker ` followed by one code unit |
| WaveformLabeler.Roster | src/app/WaveformLabeler.js:373-376 | the roster after successive Adds lists the names for 0, 1, 2, … in order |
| WaveformLabeler.InitialRoster | src/app/WaveformLabeler.js:23-24 | the initial roster is `['Speaker A', 'Speaker B']`, and `Speaker A` is the first name |
| WaveformLabeler.RosterDistinct | src/app/WaveformLabeler.js:373-376 | the names are distinct while the letter code stays below 2^16. After that, `String.fromCharCode` wraps and name 65536 repeats name 0 |
| WaveformLabeler.ValidRosterDistinct | src/app/WaveformLabeler.js:373-399 | the roster kept by Add and last-only Delete has distinct names, below that wrap-around |
| WaveformLabeler.Labeler.constructor | src/app/WaveformLabeler.js:18-28 | no hover, no drag, roster `Speaker A`, `Speaker B` with `Speaker A` selected, no selected region, no plugin |
| WaveformLabeler.Labeler.Mount | src/app/WaveformLabeler.js:43-62 | creates an empty regions plugin and changes nothing else |
| WaveformLabeler.Labeler.MouseDown | src/app/WaveformLabeler.js:129-134 | the drag starts at the pointer time, which is also the hover time |
| WaveformLabeler.Labeler.MouseMove | src/app/WaveformLabeler.js:137-142 | the hover follows the pointer except while dragging |
| WaveformLabeler.Labeler.WindowMouseMove | src/app/WaveformLabeler.js:65-68 | while dragging (the only time the listener is attached) the hover follows the pointer |
| WaveformLabeler.Labeler.WindowMouseUp | src/app/WaveformLabeler.js:71-114 | every release path ends the drag. A region is added exactly when the interval is long enough and the waveform is mounted: one idle-coloured region `[start, end]` under a fresh id, while the existing regions are kept. Otherwise the regions are unchanged |
| WaveformLabeler.Labeler.MouseLeave | src/app/WaveformLabeler.js:145-149 | clears the hover and cancels any drag |
| WaveformLabeler.Labeler.SyncRegionColors | src/app/WaveformLabeler.js:248-258 | the loop recolours every region for the current selection, as `Recolored` states |
| WaveformLabeler.Labeler.RegionClick | src/app/WaveformLabeler.js:231-246 | the clicked region becomes the selection and all regions are recoloured for it |
| WaveformLabeler.Labeler.KeyDownOnWindow | src/app/WaveformLabeler.js:272-292 | Delete or Backspace with a selected region that the plugin has removes that region and clears the selection. Anything else changes nothing |
| WaveformLabeler.Labeler.KeyDownOnContainer | src/app/WaveformLabeler.js:438-460 | Delete or Backspace with a selection and a mounted plugin removes the selected region and clears the selection. Anything else changes nothing |
| WaveformLabeler.Labeler.RemoveSelected | src/app/WaveformLabeler.js:283-284 | removes the selected region and clears the selection; the remaining regions all wear the idle colour, which is what the `region-removed` listener at lines 260-270 leads to |
| WaveformLabeler.Labeler.AddSpeaker | src/app/WaveformLabeler.js:373-376 | appends the next name, keeps the existing names and the selected speaker |
| WaveformLabeler.Labeler.DeleteSpeaker | src/app/WaveformLabeler.js:391-399 | with two speakers nothing happens. With more, only the last is dropped, and if it was selected the selection moves to the first speaker |
| WaveformLabeler.Labeler.SelectSpeaker | src/app/WaveformLabeler.js:351 | the chosen roster entry becomes the selected speaker |
| UseRegions.Restyled | src/hooks/useRegions.js:29-35 | every region gets `getRegionStyle(id, speakerRegions[id])`; ids and bounds are untouched |
| UseRegions.RestyledIdempotent | src/hooks/useRegions.js:29-35 | restyling twice is restyling once |
| UseRegions.RemovalRestyles | src/hooks/useRegions.js:20-35 | after `handleRegionRemoved(id)` the lookup `speakerRegions[id]` is `undefined`, it is unchanged for every other id, and the restyling pass gives every other region the style it gave before |
| UseRegions.RemovalKeepsOthers | src/hooks/useRegions.js:20-26 | deleting a key drops only that assignment, keeps every other one, and is a no-op when the key is absent |
| UseRegions.RegionsHook.constructor | src/hooks/useRegions.js:8-10 | no selected region, an empty assignment map and no highlighted speaker |
| UseRegions.RegionsHook.HandleRegionClick | src/hooks/useRegions.js:13-17 | selects the clicked region and changes nothing else |
| UseRegions.RegionsHook.HandleRegionRemoved | src/hooks/useRegions.js:20-26 | deletes only that region's assignment, so the region has no speaker any more, and leaves the selection and the highlight as they were |
| UseRegions.RegionsHook.UpdateAllRegionStyles | src/hooks/useRegions.js:29-35 | the loop applies `getRegionStyle` to every region of the plugin, as `Restyled` states; without a plugin it does nothing |
| FileSession.NewRecords | src/app/hooks/useAudioFiles.js:12-20 | one record per chosen file, in order, with its URL, meta `{purpose: '', desc: '', participants: 2}` and labels `['Speaker A', 'Speaker B']` with no regions |
| FileSession.WithMeta | src/app/hooks/useAudioFiles.js:31 | only file `idx` changes, and in it only meta key `key`, which takes the value; the other keys are kept |
| FileSession.KeepOthersRemoves | src/app/hooks/useAudioFiles.js:60 | the index filter drops exactly element `idx` when it is in range and nothing otherwise |
| FileSession.RemoveAt | src/app/hooks/useAudioFiles.js:60 | a delete removes exactly element `idx` and keeps the order of the others; an index out of range removes nothing |
| FileSession.IsSaved | page.js:133 | the flag is false without a selection, and false for an index with no stored flag (`undefined`) |
| FileSession.NavigationStaysInRange | page.js:129-130 | Prev and Next keep a selection in `[0, len - 1]` |
| FileSession.PrevEnabledMoves | page.js:129-131 | Prev is enabled exactly when it moves, and it then moves back by one |
| FileSession.NextEnabledMoves | page.js:130-132 | for a selection, Next is enabled exactly when it moves, and it then moves on by one. Without a selection Next is disabled, although its updater would select index 1 |
| FileSession.DeleteLeavesFlagsBehind | src/app/hooks/useAudioFiles.js:59-66 | a delete does not re-index the saved flags. A file behind the deleted one moves down by one, while its flag stays under its old index, and the deleted index has no flag |
| FileSession.Session.constructor | src/app/hooks/useAudioFiles.js:4-7 | no files, no selection, no saved flags |
| FileSession.Session.HandleUpload | src/app/hooks/useAudioFiles.js:11-27 | appends the new records after the existing ones and selects the last index; the saved flags are kept; `page.js:15-31` is the same handler |
| FileSession.Session.HandleMetaChange | src/app/hooks/useAudioFiles.js:30-33 | sets one meta key of file `idx` and marks `idx` unsaved; `page.js:34-38` is the same handler |
| FileSession.Session.HandleLabelsChange | src/app/hooks/useAudioFiles.js:36-56 | without a selection, or with equal labels, nothing changes. Otherwise the selected file takes the labels, `participants` becomes the speaker count and the file is marked unsaved. A selection outside the list throws, with nothing changed; `page.js:41-68` is the same handler |
| FileSession.Session.HandleDelete | src/app/hooks/useAudioFiles.js:59-67 | removes element `idx` and its saved key, and clears the selection exactly when it was `idx`; `page.js:71-79` is the same handler |
| FileSession.Session.HandleSave | src/app/hooks/useAudioFiles.js:70-73 | marks the selected index saved; without a selection nothing changes; `page.js:82-86` is the same handler |
| FileSession.Session.Prev | page.js:129 | steps back when the selection is above 0, and keeps a selection in range |
| FileSession.Session.Next | page.js:130 | steps on when the selection is below `len - 1`, and keeps a selection in range |
| FileSession.UploadSelectsLast | src/app/hooks/useAudioFiles.js:8-25 | after an upload of at least one file the guide is hidden and the last chosen file is selected |

## Left out

- Floating point. Times are exact milliseconds. Seconds that are not whole milliseconds, the
  rounding of `(sec % 1) * 1000`, negative times and `Infinity` are not modelled.
- TimeCodec.RoundTrip, TimeCodec.CanonicalRoundTrip and RegionList.UntouchedEditSaves hold only
  for exact milliseconds, not for the program's doubles. `parseTimeFull("00:00:01.001")` is
  `1 + 1/1000`, which rounds to the double 1.000999999999999889…; then `(t % 1) * 1000` is just
  below 1, its floor is 0, and `formatTimeFull` prints `00:00:01.000`. By the same double
  arithmetic about a third of the millisecond values after 1 s lose one millisecond, and a dragged
  region, whose bounds are not whole milliseconds, gets truncated bounds from an untouched save.
- `src/hooks/useWaveform.js` is not part of this model. WaveSurfer's lifecycle, the async
  `load` and the plugin's internals are foreign code. The plugin is reduced to a collection
  with add, remove and set-options. The plugin's own drag and resize of regions and its
  random string ids are not modelled.
- The pixel-to-time computation (`getBoundingClientRect`, `x / width * duration`) is not
  modelled. The pointed-at time before clamping is a parameter (`raw`), and so is the
  duration.
- I/O and side effects of the handlers are not modelled: alerts, `console.log`,
  `setTimeout`, focus, `preventDefault`, `stopPropagation`, and the adding and removing of
  listeners. The window listeners are modelled by the `isDragging` guard that decides when
  they are attached.
- `handleDownload` (Blob, `URL.createObjectURL`, the DOM anchor, `new Date()`) is not
  modelled. The object URL of an upload is a parameter, and `e.target.value = ''` is not
  modelled.
- The Hide button is not modelled, since it has no behaviour. Playback is not modelled: it
  is not implemented in the modelled files.
- The popup and the drag box are rendering only. The hover keeps only its time; the
  pixel coordinates are left out.
- The display styling of the region list is not modelled: colours, the selected row, the
  `미지정` label and `maxLength={12}` on the fields.
- The label comparison by `JSON.stringify` is modelled as structural equality of the labels
  value.
- The raw setters that the hooks return (`setSelectedIdx`, `setSpeakerRegions`,
  `setHighlightedSpeaker`, …) are not modelled, because their callers are not part of this
  model. The wiring between `page.js` and the components is also not modelled.
- The `try`/`catch` around `addRegion` is not modelled, because the modelled `addRegion`
  cannot fail.
- The order in which the window and container keydown handlers both run on one key press is
  not modelled. Each is a separate method.
- Region ids are nats. The model treats every id as truthy, as the plugin's non-empty string
  ids are in `selectedRegionId && …`. The lookup `regions[selectedRegionId]` at
  `src/app/WaveformLabeler.js:278` is modelled as a keyed lookup, that is membership of the
  id.
- WaveformLabeler.Labeler.KeyDownOnWindow: assumes that keyed lookup. The same file treats the
  plugin's collection as an array (`getRegions()` then `.find` at lines 435-448, and
  `getRegions().forEach` in `src/hooks/useRegions.js:31`). If `regions` is that array,
  indexing it by a string id gives `undefined`, so the window handler removes nothing and only
  the container handler deletes. The model does not capture that no-op.
- React's batching of state updates is not modelled: each handler is one atomic step.
- Speaker names in the labeler are sequences of UTF-16 code units. The file session and the
  region hook treat speaker names as opaque strings.
- WaveformLabeler.Labeler.Mount: requires that no plugin exists yet. The mount effect runs
  once, and its WaveSurfer teardown is not modelled.
- WaveformLabeler.Labeler.SelectSpeaker: requires the speaker to be in the roster. Only the
  roster's radio buttons call it.
- WaveformLabeler.Labeler.RegionClick: requires the plugin to have the clicked region. The
  plugin only raises `region-click` for its own regions. The per-region `click` listener at
  `src/app/WaveformLabeler.js:92-96` does the same minus the focus.
- WaveformLabeler.Labeler.KeyDownOnContainer: under the class invariant, the `regions.find` at
  `src/app/WaveformLabeler.js:447-448` always finds the selected region. The branch where it
  finds nothing therefore cannot occur, and the model leaves it out.
