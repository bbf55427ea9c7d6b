# SplitBrowser presets in Dafny

SplitBrowser is a macOS browser that shows a grid of up to 5 x 5 web views. What each
cell shows is described by a *preset*. A preset has a name, a row and column count, a
fixed backing array of 25 URLs addressed by `y * 5 + x`, and a `temporary` flag for a
preset that was never saved. This project models the preset layer and proves
properties of the model:

- **`Preset`** (module `Presets`). A value type `PresetValue`, plus the class `Preset`
  whose `urls` is an `array` written in place by `SetUrl`. `Clone` returns an
  independent copy. Archiving (`Encode`/`Decode`) covers every field.
- **`PresetManager`** (module `PresetManagement`). The class holds the user defaults as
  a map from the two keys the app uses (`currentPreset`, `userPresets`) to archived
  records. It also holds the local file pool as a map from file name to bytes. The
  source's `PresetManager` has only class functions over `UserDefaults` and the file
  system; the model's constructor only takes those two stores in. Around
  it sit the pure helpers: the copy name, the displayed URL and the pool URL of a file.
- **The settings session** (modules `SettingsSpec` and `Settings`). `SettingsSpec` gives
  each operation of `SettingViewController` as a function on `SessionState`, which is
  the saved preset, the working copy and the user-preset dictionary. The lemmas are
  stated about those functions. `Settings.SettingSession` is the imperative session:
  - its fields are `savedPreset`, `preset` (a `Preset` object) and `userPresets`;
  - each method is proved to move `State()` exactly as the matching function says;
  - the duplicate-name search is a loop with its invariants.
- **Start-up and reset** (modules `Browser` and `App`). These cover the reconciliation
  of the store in `BrowserViewController.viewDidLoad`, the cell-to-slot mapping of the
  browser grid, and "reset all data".

Foundation's `URL(string:)` is a parameter `parse: string -> Option<Url>`. Where a
round trip is needed, a lemma requires it, as `RoundTrips` or as
`parse("http://") == Some(DefaultUrl)`.

The form contents and the selected cell are method parameters: the name form, the URL
form and `selectionIndexPaths.first`.

A force unwrap or `try!` that would trap becomes a `requires`. This covers an
undecodable record, a missing popup title and an unparsable staged-file URL.

A thrown `NSError` becomes `Err(message)`, with the source's message text.

The model keeps these behaviours of the code:
- A failed save or OK can leave part of an edit applied. `storeFormValues` writes the
  name before the URL check, and a save whose name check fails keeps the URL edit.
- Errors are untyped messages.
- An undecodable record traps.
- The default cell URL is `http://`.
- An overwrite save never checks the 30-preset limit (see "## Findings").

## Model

| member | source | states |
|---|---|---|
| `Urls.LastPathComponent` | SplitBrowser/Preset.swift:98 | the result holds no `/`, is a suffix of the text, and is preceded by a `/` unless it is the whole text |
| `Urls.LastOfAppended` | SplitBrowser/Preset.swift:77 | after a `/`, the last path component of `s + c` is `c` whenever `c` has no `/` (proved by induction) |
| `Urls.AppendingPathComponent` | SplitBrowser/Preset.swift:71 | keeps the file flag; the result extends the base text by at least the component |
| `Urls.AppendedComponentIsLast` | SplitBrowser/Preset.swift:77 | the last path component of `u` with a component appended is that component |
| `Presets.DefaultShape` | SplitBrowser/Preset.swift:107-121 | `Preset()` is named `名称未設定`, is 1 x 1 and temporary, and has exactly 25 URLs, all `http://` |
| `Presets.GridCellsHaveDistinctSlots` | SplitBrowser/Preset.swift:124-131 | every cell of the 5 x 5 grid maps to a slot below 25, and distinct cells to distinct slots |
| `Presets.SetThenLoad` | SplitBrowser/Preset.swift:124-131 | after `setUrl(u, x, y)`, `loadUrl(x, y)` is `u`, every other slot and field is unchanged, and the length stays the same |
| `Presets.DecodeUrls` | SplitBrowser/Preset.swift:158-159 | decoding succeeds exactly when every string parses, and then yields the parsed URLs in order |
| `Presets.Encode` | SplitBrowser/Preset.swift:141-149 | `encode(with:)` keeps name, row, col, temporary and every slot, each URL as its text |
| `Presets.Decode` | SplitBrowser/Preset.swift:152-160 | `init?(coder:)` succeeds exactly when every stored text parses, and then restores every field and each slot as the parse of its text; `ArchiveRoundTrip` and `RecordRoundTrip` make it the inverse of `Encode` |
| `Presets.ArchiveRoundTrip` | SplitBrowser/Preset.swift:141-160 | decode after encode gives back every field and all 25 slots, not only the visible window, when the URLs re-parse |
| `Presets.DefaultRoundTrip` | SplitBrowser/Preset.swift:113-121 | `Preset()` survives archiving when `URL(string: "http://")` yields the default URL |
| `Presets.RecordRoundTrip` | SplitBrowser/Preset.swift:141-160 | encode after decode gives the archived record back when parsing keeps the text |
| `Presets.Default` | SplitBrowser/Preset.swift:107-121 | `Preset()` is temporary and named `名称未設定`, every cell of the 5 x 5 grid has a slot, and every slot holds `http://` |
| `Presets.Preset.constructor` | SplitBrowser/Preset.swift:113-121 | a fresh 25-slot array whose value is `Preset()` |
| `Presets.Preset.LoadUrl` | SplitBrowser/Preset.swift:124-126 | the URL in slot `y * 5 + x` |
| `Presets.Preset.SetUrl` | SplitBrowser/Preset.swift:129-131 | writes only slot `y * 5 + x` of the array, in place |
| `Presets.Preset.Clone` | SplitBrowser/Preset.swift:134-138 | a fresh object with a fresh array and an equal value |
| `Presets.CloneIsIndependent` | SplitBrowser/Preset.swift:134-138 | a write to the clone and one to the original each leave the other untouched |
| `PresetManagement.DecodeAll` | SplitBrowser/Preset.swift:50-54 | the dictionary decodes exactly when every entry does, with the same keys and each entry decoded |
| `PresetManagement.StoreThenLoadCurrent` | SplitBrowser/Preset.swift:30-40 | loading after storing the current preset gives it back; the dictionary record is untouched |
| `PresetManagement.StoreDefaultThenLoad` | SplitBrowser/Preset.swift:23-27 | `Preset()` stored as the current preset loads back as itself |
| `PresetManagement.StoreCurrentAgain` | SplitBrowser/Preset.swift:37-40 | storing the preset the record already holds leaves the store unchanged |
| `PresetManagement.StoreThenLoadDictionary` | SplitBrowser/Preset.swift:50-60 | loading after storing gives exactly the stored dictionary, with nothing merged from before; the current preset is untouched |
| `PresetManagement.GetCloneName` | SplitBrowser/Preset.swift:63-65 | the original followed by `のコピー`, so strictly longer |
| `PresetManagement.CloneNameIsNotUnsetTitle` | SplitBrowser/Preset.swift:20 | no copy name is the reserved title `新規プリセット` |
| `PresetManagement.GetDisplayUrl` | SplitBrowser/Preset.swift:96-102 | a file URL shows its last path component: a suffix of its text without `/`, preceded by `/` or the whole text; any other URL shows its whole text |
| `PresetManagement.LocalFilePoolUrl` | SplitBrowser/Preset.swift:68-73 | the pool directory lies under the home directory and keeps its file flag |
| `PresetManagement.LocalFilePoolIsNamed` | SplitBrowser/Preset.swift:70 | the pool directory's last component is `LocalFilePool` |
| `PresetManagement.GetLocalFileUrl` | SplitBrowser/Preset.swift:76-78 | a URL inside `~/Library/LocalFilePool` with the home URL's file flag |
| `PresetManagement.LocalFileShowsItsName` | SplitBrowser/Preset.swift:76-78 | for a file home URL and a name without `/`, the pool URL is a file URL whose last component, and so its display text, is that name |
| `PresetManagement.StagedPool` | SplitBrowser/Preset.swift:81-93 | the name maps to the bytes read when the read succeeds and to nothing when it fails; other files are untouched |
| `PresetManagement.LastStagedWins` | SplitBrowser/Preset.swift:87-92 | staging a file of the same name again replaces the earlier copy |
| `PresetManagement.PresetManager.CreateCurrentPresetIfUnset` | SplitBrowser/Preset.swift:23-27 | writes `Preset()` only when the key is absent; a present record is never overwritten |
| `PresetManagement.PresetManager.LoadCurrentPreset` | SplitBrowser/Preset.swift:30-34 | decodes the current record |
| `PresetManagement.PresetManager.StoreCurrentPreset` | SplitBrowser/Preset.swift:37-40 | overwrites the current record unconditionally |
| `PresetManagement.PresetManager.CreateUserPresetsDictionaryIfUnset` | SplitBrowser/Preset.swift:43-47 | writes the empty dictionary only when the key is absent |
| `PresetManagement.PresetManager.LoadUserPresets` | SplitBrowser/Preset.swift:50-54 | decodes the dictionary record |
| `PresetManagement.PresetManager.StoreUserPresets` | SplitBrowser/Preset.swift:57-60 | replaces the whole dictionary record |
| `PresetManagement.PresetManager.StoreLocalFile` | SplitBrowser/Preset.swift:81-93 | the pool becomes `StagedPool`; fails exactly when the read fails, after removing the old copy; staging the pool's own copy fails and leaves the pool without it |
| `PresetManagement.PoolUrlIsPoolCopy` | SplitBrowser/Preset.swift:76-89 | every URL the pool hands out is recognised as a pool copy, whose old copy `storeLocalFile` removes before reading it |
| `SettingsSpec.StoreUrlOnlyTouchesSelectedCell` | SplitBrowser/SettingViewController.swift:145-160 | `storeUrl` changes at most the selected slot and no other field, and nothing when it throws; with no cell selected it succeeds and changes nothing |
| `SettingsSpec.StoreUrlWebText` | SplitBrowser/SettingViewController.swift:132-152 | `http:`/`https:` text succeeds exactly when it parses, and then the cell holds the parsed URL; a failure leaves the preset unchanged |
| `SettingsSpec.StoreUrlOtherText` | SplitBrowser/SettingViewController.swift:153-159 | other text never writes, and passes exactly when the cell holds a file URL whose last path component is that text |
| `SettingsSpec.DisplayedUrl` | SplitBrowser/SettingViewController.swift:81-93 | the URL form shows nothing without a selection, the file name of a selected file URL and the whole text of any other URL; `RedisplayedTextIsAccepted` shows that committing it changes nothing |
| `SettingsSpec.RedisplayedTextIsAccepted` | SplitBrowser/SettingViewController.swift:81-93 | committing the text `loadUrl` displays changes nothing and does not throw |
| `SettingsSpec.StagedFileNameIsAccepted` | SplitBrowser/SettingViewController.swift:363-380 | after the file chooser writes a pool URL, the form shows the file name, and committing that name is accepted without a change |
| `SettingsSpec.AssignPresetOutcome` | SplitBrowser/SettingViewController.swift:181-195 | succeeds exactly when there is room (or it overwrites) and the key is neither used nor reserved; its only effect is the rename |
| `SettingsSpec.SaveEdit` | SplitBrowser/SettingViewController.swift:163-172 | the save's form step, with the name excepted, is the URL check; it keeps the name and flag, and coherence |
| `SettingsSpec.CommitSpec` | SplitBrowser/SettingViewController.swift:201-218 | the commit as written: a throw reports the limit or the name; a success leaves the working copy, non-temporary, as both the saved preset and the entry under the key |
| `SettingsSpec.CommitFailureChangesNothing` | SplitBrowser/SettingViewController.swift:201-215 | a commit whose name or limit check throws changes nothing |
| `SettingsSpec.SaveFailureKeepsSavedState` | SplitBrowser/SettingViewController.swift:198-215 | a failed save leaves the saved preset and the dictionary as they were; the working copy keeps the URL edit |
| `SettingsSpec.SaveRecordsEditedCopy` | SplitBrowser/SettingViewController.swift:198-218 | when the names agree (`NamesAgree`, which every session reaches and keeps), after a save the entry under the key, the saved preset and the working copy are all the edited copy, named by the key and not temporary |
| `SettingsSpec.CommitRecordsWorkingCopy` | SplitBrowser/SettingViewController.swift:201-218 | when the names agree (`NamesAgree`, which every session reaches and keeps), the entry under the key after a commit is the working copy renamed and made non-temporary, and it is also the saved preset |
| `SettingsSpec.CommitKeepsOtherEntries` | SplitBrowser/SettingViewController.swift:201-218 | the keys afterwards are among the old keys plus the new key; only the key and, on a rename, the old key change |
| `SettingsSpec.NewCommitAddsOneKey` | SplitBrowser/SettingViewController.swift:202-208 | saving a temporary preset or a duplicate adds exactly the new key below the limit; earlier entries are unchanged |
| `SettingsSpec.OverwriteKeepsCount` | SplitBrowser/SettingViewController.swift:209-214 | in a coherent session an overwrite keeps the count; a rename drops the old key |
| `SettingsSpec.CommitRespectsCapacity` | SplitBrowser/SettingViewController.swift:181-218 | the corrected commit `CorrectedCommitSpec` never takes the dictionary past 30 entries, in any session |
| `SettingsSpec.SaveRespectsCapacity` | SplitBrowser/SettingViewController.swift:198-218 | in a coherent session, no save takes the dictionary past 30 entries |
| `SettingsSpec.OverwriteCanExceedCapacity` | SplitBrowser/SettingViewController.swift:209-214 | with 30 entries and a saved preset whose key is gone, an overwrite under the old name or a rename to a free name succeeds with 31 entries |
| `SettingsSpec.CorrectedCommitAgreesWhenCoherent` | SplitBrowser/SettingViewController.swift:201-218 | in a coherent session the corrected commit equals the source's |
| `SettingsSpec.CommitRespectsCapacityWhenCoherent` | SplitBrowser/SettingViewController.swift:201-218 | the source's commit keeps the limit in every coherent session |
| `SettingsSpec.CopyNameLength` | SplitBrowser/SettingViewController.swift:333-339 | the n-th copy name is n suffixes longer than the original (by induction) |
| `SettingsSpec.FirstFreeCopyIsUnique` | SplitBrowser/SettingViewController.swift:333-339 | at most one name is the first free copy name |
| `SettingsSpec.FirstFreeCopyIsNotUnsetTitle` | SplitBrowser/SettingViewController.swift:333-339 | the first free copy name is neither a key nor the reserved title |
| `SettingsSpec.DuplicateOutcome` | SplitBrowser/SettingViewController.swift:332-343 | a duplicate succeeds exactly when the URL in the form is valid and there is room |
| `SettingsSpec.DuplicateAddsOneKey` | SplitBrowser/SettingViewController.swift:202-208 | a successful duplicate adds exactly the copy name, as a non-temporary copy; the original's entry is unchanged |
| `SettingsSpec.DeleteOfSavedPreset` | SplitBrowser/SettingViewController.swift:327-330 | deleting a saved working copy removes exactly its entry and resets to `Preset()` |
| `SettingsSpec.ResizeKeepsCells` | SplitBrowser/SettingViewController.swift:317-321 | resizing assigns only `row` and `col`; shrinking then growing back restores the preset |
| `SettingsSpec.OkNaming` | SplitBrowser/SettingViewController.swift:388-396 | OK takes the name from the form only for a temporary preset, even when the URL check then throws; a failure keeps every cell |
| `SettingsSpec.CommitKeepsCoherent` | SplitBrowser/SettingViewController.swift:201-219 | a commit keeps the session coherent, and keeps all 25 slots of every preset |
| `SettingsSpec.SaveKeepsCoherent` | SplitBrowser/SettingViewController.swift:198-219 | saving keeps every entry named by its key and the working copy tied to its saved entry, and keeps every preset at 25 slots |
| `SettingsSpec.DeleteKeepsCoherent` | SplitBrowser/SettingViewController.swift:327-330 | delete keeps the session coherent and every preset at 25 slots |
| `SettingsSpec.SelectKeepsCoherent` | SplitBrowser/SettingViewController.swift:294-304 | selecting a preset keeps the session coherent and every preset at 25 slots |
| `SettingsSpec.EditsKeepCoherent` | SplitBrowser/SettingViewController.swift:317-321 | cell edits, resizing and a failed OK keep the session coherent and every preset at 25 slots |
| `SettingsSpec.NamesAgreeIsReached` | SplitBrowser/SettingViewController.swift:66-69 | `changePreset`, through which opening a preset, selecting and deleting all go, leaves a non-temporary working copy carrying its saved preset's name |
| `SettingsSpec.SaveKeepsNamesAgree` | SplitBrowser/SettingViewController.swift:198-219 | a save, successful or not, keeps the working copy's name equal to the saved preset's when it is not temporary |
| `SettingsSpec.EditsKeepNamesAgree` | SplitBrowser/SettingViewController.swift:388-396 | cell edits, resizing and OK keep the names in agreement; OK renames only a temporary preset |
| `Settings.SettingSession.constructor` | SplitBrowser/SettingViewController.swift:37-41 | saved preset and working copy are the stored current preset, so the names agree; the dictionary is the stored one |
| `Settings.SettingSession.ChangePreset` | SplitBrowser/SettingViewController.swift:66-69 | the instance becomes the saved preset, and a fresh object holding it becomes the working copy |
| `Settings.SettingSession.ReloadAll` | SplitBrowser/SettingViewController.swift:72-76 | back to `Preset()`, with the dictionary re-read from the store |
| `Settings.SettingSession.ForceStoreUrl` | SplitBrowser/SettingViewController.swift:132-142 | follows `ForceStoreUrlSpec` |
| `Settings.SettingSession.StoreUrl` | SplitBrowser/SettingViewController.swift:145-160 | follows `StoreUrlSpec` |
| `Settings.SettingSession.StoreFormValues` | SplitBrowser/SettingViewController.swift:163-172 | follows `StoreFormValuesSpec` |
| `Settings.SettingSession.StoreFileUrl` | SplitBrowser/SettingViewController.swift:175-178 | the parsed URL is written into the cell |
| `Settings.SettingSession.AssignPreset` | SplitBrowser/SettingViewController.swift:181-195 | follows `AssignPresetSpec` |
| `Settings.SettingSession.StoreUserPresets` | SplitBrowser/SettingViewController.swift:198-221 | follows `StoreUserPresetsSpec`; on success the stored dictionary is the in-memory one, on failure the store is unchanged |
| `Settings.SettingSession.Commit` | SplitBrowser/SettingViewController.swift:201-219 | follows `CommitSpec`, the commit as written, including the duplicate's fresh copy |
| `Settings.SettingSession.Record` | SplitBrowser/SettingViewController.swift:217-219 | saved preset and entry become the working copy's value; the dictionary is persisted |
| `Settings.SettingSession.FindCloneName` | SplitBrowser/SettingViewController.swift:333-339 | the loop ends with the first copy name that is not a key |
| `Settings.SettingSession.Delete` | SplitBrowser/SettingViewController.swift:327-330 | follows `DeleteSpec`: removes the working copy's name, persists the dictionary, resets to `Preset()` |
| `Settings.SettingSession.Duplicate` | SplitBrowser/SettingViewController.swift:332-348 | saves under the first free copy name, following `StoreUserPresetsSpec` |
| `Settings.SettingSession.Select` | SplitBrowser/SettingViewController.swift:294-304 | follows `SelectSpec` |
| `Settings.SettingSession.Resize` | SplitBrowser/SettingViewController.swift:317-321 | follows `ResizeSpec` |
| `Settings.SettingSession.Confirm` | SplitBrowser/SettingViewController.swift:388-397 | follows `OkSpec`; stores the working copy as the current preset exactly when validation passes |
| `Settings.SettingSession.ChooseLocalFile` | SplitBrowser/SettingViewController.swift:363-380 | stages the file; on success writes its pool URL into the cell, on failure changes no cell; choosing the pool's own copy fails and removes it from the pool |
| `Browser.Seeded` | SplitBrowser/BrowserViewController.swift:19-20 | after seeding both records are present |
| `Browser.SeededCurrent` | SplitBrowser/BrowserViewController.swift:19 | seeding keeps a present current preset and otherwise writes `Preset()` |
| `Browser.SeededWhenPresent` | SplitBrowser/BrowserViewController.swift:19-20 | seeding does nothing when both records are present |
| `Browser.Startup` | SplitBrowser/BrowserViewController.swift:19-23 | follows `StartupSpec` and leaves the pool alone |
| `Browser.StartupSeedsAndKeeps` | SplitBrowser/BrowserViewController.swift:19-23 | both records present afterwards; a present dictionary and a present non-temporary current preset are kept |
| `Browser.StartupResetsTemporary` | SplitBrowser/BrowserViewController.swift:21-23 | a temporary or missing current preset loads as `Preset()` afterwards; a saved one is left as it was |
| `Browser.StartupIdempotent` | SplitBrowser/BrowserViewController.swift:19-23 | running start-up twice gives the same store as once |
| `Browser.ConfirmedPresetAfterRelaunch` | SplitBrowser/BrowserViewController.swift:21-23 | a preset committed with OK survives a relaunch only if it is not temporary |
| `Browser.CellUrl` | SplitBrowser/BrowserViewController.swift:79 | cell (section, item) inside a grid of at most 5 x 5 loads slot `section * 5 + item`, always below 25 |
| `App.ResetAllData` | SplitBrowser/AppDelegate.swift:33-34 | overwrites both records: `Preset()` and the empty dictionary |
| `App.ResetLoads` | SplitBrowser/AppDelegate.swift:33-34 | after a reset the current preset loads as `Preset()` and the dictionary as empty |
| `App.ResetThenStartup` | SplitBrowser/AppDelegate.swift:33-34 | start-up right after a reset changes nothing |

## Left out

- User interface and layout: collection views, `fitCell`/`fit`, popup menu contents,
  tooltips, dialogs, window closing and the reload of the browser window after OK or a
  reset. The form widgets are left out too. Their contents, and the chosen file, are
  parameters.
- Web content loading (`BrowserItem`).
- Foundation's URL syntax. `URL(string:)` is the parameter `parse`.
- `lastPathComponent` is the text after the last `/`. Trailing slashes and percent
  escapes are not treated specially.
- `DefaultUrl` is fixed as the non-file URL `http://`, which is what
  `URL(string: "http://")!` stands for.
- `NSKeyedArchiver` and `UserDefaults`: an archive is the record of field values, and the
  user defaults are a map on the two keys the app uses. Keys of other programs are not
  modelled.
- Preset archiving is a map on values. An undecodable record is a `requires` (the
  source traps).
- `Presets.Preset.Clone`: copies the fields instead of archiving and unarchiving. The
  two agree when the URLs re-parse, as `ArchiveRoundTrip` proves.
- `Settings.SettingSession.Commit`: a duplicate takes a fresh copy through `Clone`
  rather than through the archiver, for the same reason.
- The saved preset and the dictionary entries are values, not shared objects. The
  source never mutates them after creating them, so only the working copy is an object.
- File system: creating the pool directory, its failure, and the ignored result of
  `createFile` (SplitBrowser/Preset.swift:92). A read failure is `Failure` in `contents`.
- The home directory is a parameter.
- `PresetManagement.PresetManager.StoreLocalFile`: a failing `removeItem`
  (SplitBrowser/Preset.swift:89) is not modelled; the old copy is always removed. The
  read result `contents` is a parameter: the model knows only that reading the pool's
  own, just removed copy fails, not what other files hold.
- Floating-point layout sizes.
- String comparison is by code points, with no Unicode normalisation.
- `App.ResetAllData` does not model the dispatch to the visible view controller
  (SplitBrowser/AppDelegate.swift:36-42).
- The "reload all browsers" menu action and `loadContents` are display only.
- `SettingsSpec.SaveRespectsCapacity`: holds only in coherent sessions. The source's
  overwrite branch skips the limit check, and `OverwriteCanExceedCapacity` shows a save
  that reaches 31 entries.
- `SettingsSpec.FullSized`: a session read from the store is not proved to have 25 slots
  per preset, because the stored records are arbitrary. The session's own steps are
  proved to keep 25 slots.

## Findings

| source | as written | input that shows it | evidently intended | confidence | as-written member | corrected member |
|---|---|---|---|---|---|---|
| SplitBrowser/SettingViewController.swift:209-214 | an overwrite save of a non-temporary preset never checks the limit, yet it adds the key when the saved preset's old name is no longer in the dictionary | delete preset `A` (the store's current preset stays `A`) and cancel; fill the dictionary to 30; reopen settings, so `A` is loaded as non-temporary; save: the dictionary holds 31 | at most 30 user presets | not executed | `SettingsSpec.OverwriteCanExceedCapacity` | `SettingsSpec.CommitRespectsCapacity` |

`SettingsSpec.CommitSpec` is the commit as written, and `Settings.SettingSession.Commit`
implements it. The corrected commit is `SettingsSpec.CorrectedCommitSpec`. It differs
only when the saved preset's name is no longer a key: there it applies the same limit
check as a new save. `CorrectedCommitAgreesWhenCoherent` shows the two are identical in
every coherent session. A session is coherent when every entry is stored under its own
name and a non-temporary working copy has a live entry.
