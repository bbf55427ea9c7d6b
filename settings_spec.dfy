/** The editing session of SplitBrowser/SettingViewController.swift as transitions on
    values: what each operation does to the saved preset, the working copy and the
    dictionary of user presets. The class in module Settings is proved to follow them. */
module SettingsSpec {
  import opened Wrappers
  import opened Urls
  import opened Presets
  import opened PresetManagement

  /** A selected cell of the settings grid: `indexPath.item` is the column x,
      `indexPath.section` the row y. */
  datatype Cell = Cell(item: int, section: int)

  /** `savedPreset` (last committed value), `preset` (the working copy) and `userPresets`. */
  datatype SessionState = SessionState(saved: PresetValue, working: PresetValue, presets: map<string, PresetValue>)

  /** What an operation that `throws` leaves behind: whether it threw, and the value it left. */
  datatype Outcome<T> = Outcome(status: Status, value: T)

  type Step = Outcome<PresetValue>
  type SessionStep = Outcome<SessionState>

  function InvalidUrlMessage(text: string): string
  {
    text + " は無効な URL です"
  }

  const LimitMessage := "プリセット保存上限数は 30 件です"

  function NameTakenMessage(key: string): string
  {
    "プリセット名 : " + key + " はすでに使用されています"
  }

  /** Text that `storeUrl` treats as a web address. */
  predicate IsWebText(text: string)
  {
    IsPrefix("http:", text) || IsPrefix("https:", text)
  }

  predicate CellAddressable(p: PresetValue, c: Cell)
  {
    Addressable(p, c.item, c.section)
  }

  /** No cell is selected, or the selected one has a slot. */
  predicate Selectable(p: PresetValue, selected: Option<Cell>)
  {
    selected.Some? ==> CellAddressable(p, selected.value)
  }

  function UrlAt(p: PresetValue, c: Cell): Url
    requires CellAddressable(p, c)
  {
    p.urls[BackingIndex(c.item, c.section)]
  }

  /** `changePreset(instance:)`: the instance becomes the saved preset and a clone of it the working copy. */
  function ChangePresetSpec(s: SessionState, instance: PresetValue): SessionState
  {
    SessionState(instance, instance, s.presets)
  }

  /** `forceStoreUrl(string:)`: parse the text and write it into the selected cell. */
  function ForceStoreUrlSpec(parse: Parser, p: PresetValue, c: Cell, text: string): Step
    requires CellAddressable(p, c)
  {
    match parse(text)
    case Some(u) => Outcome(Ok, WithUrl(p, c.item, c.section, u))
    case None => Outcome(Err(InvalidUrlMessage(text)), p)
  }

  /** `storeUrl()`: web text is parsed and written; any other text is accepted only as the
      file name the selected cell already shows, and is never written. */
  function StoreUrlSpec(parse: Parser, p: PresetValue, selected: Option<Cell>, text: string): Step
    requires Selectable(p, selected)
  {
    if selected.None? then Outcome(Ok, p)
    else if IsWebText(text) then ForceStoreUrlSpec(parse, p, selected.value, text)
    else
      var current := UrlAt(p, selected.value);
      if current.isFile && text == LastPathComponent(current.str) then Outcome(Ok, p)
      else Outcome(Err(InvalidUrlMessage(text)), p)
  }

  /** `storeFormValues(exceptName:)`: the name is written first, before the URL check can throw. */
  function StoreFormValuesSpec(parse: Parser, p: PresetValue, exceptName: bool, nameText: string,
                               selected: Option<Cell>, urlText: string): Step
    requires Selectable(p, selected)
  {
    var named := if exceptName then p else p.(name := nameText);
    StoreUrlSpec(parse, named, selected, urlText)
  }

  /** `assignPreset(key:overwrite:)`. */
  function AssignPresetSpec(presets: map<string, PresetValue>, p: PresetValue, key: string, overwrite: bool): Step
  {
    if !overwrite && |presets| >= MaxPreset then Outcome(Err(LimitMessage), p)
    else if key in presets || key == UnsetTitle then Outcome(Err(NameTakenMessage(key)), p)
    else Outcome(Ok, p.(name := key))
  }

  /** The end of a successful `storeUserPresets`: a clone of the working copy becomes the
      saved preset and is entered under the key. */
  function Committed(presets: map<string, PresetValue>, key: string, w: PresetValue): SessionStep
  {
    Outcome(Ok, SessionState(w, w, presets[key := w]))
  }

  /** `storeUserPresets(duplicate:)` after the form values are written (lines 201-218):
      name and limit checks, then the commit under `key`. An overwrite of a saved preset
      never checks the limit; a rename checks only the name. A commit that throws reports
      the limit or the name; one that succeeds leaves the working copy, non-temporary, as
      both the saved preset and the entry under `key`. */
  function CommitSpec(s: SessionState, duplicate: bool, key: string): (r: SessionStep)
    ensures r.status.Err? ==> r.status.domain == LimitMessage || r.status.domain == NameTakenMessage(key)
    ensures r.status.Ok? ==> key in r.value.presets && r.value.presets[key] == r.value.saved == r.value.working
    ensures r.status.Ok? ==> !r.value.working.temporary
  {
    if s.working.temporary || duplicate then
      var outcome := AssignPresetSpec(s.presets, s.working, key, false);
      if outcome.status.Err? then Outcome(outcome.status, s.(working := outcome.value))
      else Committed(s.presets, key, outcome.value.(temporary := false))
    else if s.saved.name != key then
      var outcome := AssignPresetSpec(s.presets, s.working, key, true);
      if outcome.status.Err? then Outcome(outcome.status, s.(working := outcome.value))
      else Committed(s.presets - {s.saved.name}, key, outcome.value)
    else
      Committed(s.presets, key, s.working)
  }

  /** `storeUserPresets(duplicate:)`, with the key read from the name form: the URL in the
      form is checked and written first, then the edited working copy is committed. */
  function StoreUserPresetsSpec(parse: Parser, s: SessionState, duplicate: bool, nameText: string,
                                selected: Option<Cell>, urlText: string): SessionStep
    requires Selectable(s.working, selected)
  {
    var edited := StoreFormValuesSpec(parse, s.working, true, nameText, selected, urlText);
    if edited.status.Err? then Outcome(edited.status, s.(working := edited.value))
    else CommitSpec(s.(working := edited.value), duplicate, nameText)
  }

  /** The delete button: removes the entry named like the WORKING copy, then starts over
      from `Preset()`. The dictionary is persisted before the restart. */
  function DeleteSpec(s: SessionState): SessionState
  {
    ChangePresetSpec(s.(presets := s.presets - {s.working.name}), Default())
  }

  /** `selectedPreset`: the first popup item (`None`) loads `Preset()`, any other the entry of that title. */
  function SelectSpec(s: SessionState, title: Option<string>): SessionState
    requires title.Some? ==> title.value in s.presets
  {
    ChangePresetSpec(s, if title.None? then Default() else s.presets[title.value])
  }

  /** `clickedChangeSizeButton`: only `row` and `col` are assigned. */
  function ResizeSpec(p: PresetValue, rows: int, cols: int): PresetValue
  {
    p.(row := rows, col := cols)
  }

  /** `clickedOk`, up to storing the result as the current preset: the name is taken from
      the form only for a temporary preset. */
  function OkSpec(parse: Parser, p: PresetValue, nameText: string, selected: Option<Cell>, urlText: string): Step
    requires Selectable(p, selected)
  {
    StoreFormValuesSpec(parse, p, !p.temporary, nameText, selected, urlText)
  }

  /* ---------------- Session invariant ---------------- */

  /** Every entry is stored under its own name and is not temporary. */
  ghost predicate EntriesNamedByKey(presets: map<string, PresetValue>)
  {
    forall k | k in presets :: presets[k].name == k && !presets[k].temporary
  }

  /** A non-temporary working copy carries its saved preset's name, and that name is a key. */
  ghost predicate Coherent(s: SessionState)
  {
    && EntriesNamedByKey(s.presets)
    && (!s.working.temporary ==> s.working.name == s.saved.name && s.saved.name in s.presets)
  }

  /** Every preset of the session keeps all 25 slots of its backing array. */
  ghost predicate FullSized(s: SessionState)
  {
    && |s.saved.urls| == Capacity && |s.working.urls| == Capacity
    && forall k | k in s.presets :: |s.presets[k].urls| == Capacity
  }

  /** A saved (non-temporary) working copy carries its saved preset's name. */
  ghost predicate NamesAgree(s: SessionState)
  {
    !s.working.temporary ==> s.working.name == s.saved.name
  }

  /* ---------------- URL editing ---------------- */

  /** `storeUrl` changes at most the selected slot, and nothing at all when it throws. */
  lemma StoreUrlOnlyTouchesSelectedCell(parse: Parser, p: PresetValue, selected: Option<Cell>, text: string)
    requires Selectable(p, selected)
    ensures var r := StoreUrlSpec(parse, p, selected, text);
      && (r.status.Err? ==> r.value == p)
      && r.value.(urls := p.urls) == p
      && |r.value.urls| == |p.urls|
      && forall i | 0 <= i < |p.urls| && (selected.None? || i != BackingIndex(selected.value.item, selected.value.section)) ::
           r.value.urls[i] == p.urls[i]
    ensures selected.None? ==> StoreUrlSpec(parse, p, selected, text) == Outcome(Ok, p)
  {
  }

  /** Web text: the cell receives `URL(string: text)`, or the call throws and the preset is unchanged. */
  lemma StoreUrlWebText(parse: Parser, p: PresetValue, c: Cell, text: string)
    requires CellAddressable(p, c) && IsWebText(text)
    ensures var r := StoreUrlSpec(parse, p, Some(c), text);
      && (r.status.Ok? <==> parse(text).Some?)
      && (r.status.Ok? ==> UrlAt(r.value, c) == parse(text).value)
      && (r.status.Err? ==> r.value == p)
  {
  }

  /** Other text is never written; it passes exactly when the cell holds a file URL of that name. */
  lemma StoreUrlOtherText(parse: Parser, p: PresetValue, c: Cell, text: string)
    requires CellAddressable(p, c) && !IsWebText(text)
    ensures var r := StoreUrlSpec(parse, p, Some(c), text);
      && r.value == p
      && (r.status.Ok? <==> UrlAt(p, c).isFile && LastPathComponent(UrlAt(p, c).str) == text)
  {
  }

  /** `loadUrl()`: the text the URL form shows, empty when no cell is selected. */
  function DisplayedUrl(p: PresetValue, selected: Option<Cell>): (r: string)
    requires Selectable(p, selected)
    ensures selected.None? ==> r == ""
    ensures selected.Some? && UrlAt(p, selected.value).isFile ==>
      '/' !in r && r == LastPathComponent(UrlAt(p, selected.value).str)
    ensures selected.Some? && !UrlAt(p, selected.value).isFile ==> r == UrlAt(p, selected.value).str
  {
    if selected.None? then "" else GetDisplayUrl(UrlAt(p, selected.value))
  }

  /** Committing the text the form displays changes nothing and does not throw, for a file
      URL and for a web URL that re-parses to itself. */
  lemma RedisplayedTextIsAccepted(parse: Parser, p: PresetValue, selected: Option<Cell>)
    requires Selectable(p, selected)
    requires selected.Some? && UrlAt(p, selected.value).isFile ==> !IsWebText(LastPathComponent(UrlAt(p, selected.value).str))
    requires selected.Some? && !UrlAt(p, selected.value).isFile ==>
      IsWebText(UrlAt(p, selected.value).str) && parse(UrlAt(p, selected.value).str) == Some(UrlAt(p, selected.value))
    ensures StoreUrlSpec(parse, p, selected, DisplayedUrl(p, selected)) == Outcome(Ok, p)
  {
    if selected.Some? {
      var i := BackingIndex(selected.value.item, selected.value.section);
      assert p.urls[i := p.urls[i]] == p.urls;
    }
  }

  /** After a file is staged and its pool URL force-written into a cell (the file chooser),
      typing back the name the form shows is accepted and keeps the file URL. */
  lemma StagedFileNameIsAccepted(parse: Parser, p: PresetValue, c: Cell, home: Url, name: string)
    requires CellAddressable(p, c)
    requires home.isFile && '/' !in name && !IsWebText(name)
    requires parse(GetLocalFileUrl(home, name).str) == Some(GetLocalFileUrl(home, name))
    ensures var forced := ForceStoreUrlSpec(parse, p, c, GetLocalFileUrl(home, name).str);
      && forced.status.Ok?
      && DisplayedUrl(forced.value, Some(c)) == name
      && StoreUrlSpec(parse, forced.value, Some(c), name) == Outcome(Ok, forced.value)
  {
    LocalFileShowsItsName(home, name);
  }

  /* ---------------- Naming and saving ---------------- */

  /** `assignPreset` succeeds exactly when there is room (or it overwrites) and the key is
      neither used nor the reserved title; its only effect is to rename the working copy. */
  lemma AssignPresetOutcome(presets: map<string, PresetValue>, p: PresetValue, key: string, overwrite: bool)
    ensures var r := AssignPresetSpec(presets, p, key, overwrite);
      && (r.status.Ok? <==> (overwrite || |presets| < MaxPreset) && key !in presets && key != UnsetTitle)
      && (r.status.Ok? ==> r.value == p.(name := key))
      && (r.status.Err? ==> r.value == p)
  {
  }

  /** The edit a save starts with: the URL check on the working copy, which keeps its name,
      and the session stays coherent. */
  lemma SaveEdit(parse: Parser, s: SessionState, nameText: string, selected: Option<Cell>, urlText: string)
    requires Selectable(s.working, selected)
    ensures var edited := StoreFormValuesSpec(parse, s.working, true, nameText, selected, urlText);
      && edited == StoreUrlSpec(parse, s.working, selected, urlText)
      && edited.value.name == s.working.name && edited.value.temporary == s.working.temporary
      && (edited.status.Err? ==> edited.value == s.working)
      && (Coherent(s) ==> Coherent(s.(working := edited.value)))
  {
    StoreUrlOnlyTouchesSelectedCell(parse, s.working, selected, urlText);
  }

  /** A commit that throws changes nothing. */
  lemma CommitFailureChangesNothing(s: SessionState, duplicate: bool, key: string)
    ensures var r := CommitSpec(s, duplicate, key);
      r.status.Err? ==> r.value == s
  {
    if s.working.temporary || duplicate {
      AssignPresetOutcome(s.presets, s.working, key, false);
    } else if s.saved.name != key {
      AssignPresetOutcome(s.presets, s.working, key, true);
    }
  }

  /** A save that throws leaves the saved preset and the dictionary as they were; the working
      copy keeps the URL edit when it was the naming check that threw. */
  lemma SaveFailureKeepsSavedState(parse: Parser, s: SessionState, duplicate: bool, nameText: string,
                                   selected: Option<Cell>, urlText: string)
    requires Selectable(s.working, selected)
    ensures var r := StoreUserPresetsSpec(parse, s, duplicate, nameText, selected, urlText);
      r.status.Err? ==>
        && r.value.saved == s.saved && r.value.presets == s.presets
        && r.value.working == StoreUrlSpec(parse, s.working, selected, urlText).value
  {
    SaveEdit(parse, s, nameText, selected, urlText);
    var edited := StoreFormValuesSpec(parse, s.working, true, nameText, selected, urlText);
    CommitFailureChangesNothing(s.(working := edited.value), duplicate, nameText);
  }

  /** After a successful commit the entry under the key is the working copy renamed to the
      key and no longer temporary, and it is also the new saved preset and working copy
      (in every session the program reaches: see `NamesAgreeIsReached`). */
  lemma CommitRecordsWorkingCopy(s: SessionState, duplicate: bool, key: string)
    requires NamesAgree(s)
    ensures var r := CommitSpec(s, duplicate, key);
      r.status.Ok? ==>
        && key in r.value.presets
        && r.value.presets[key] == r.value.working == r.value.saved
        && r.value.working == s.working.(name := key, temporary := false)
  {
  }

  /** After a successful save the entry under the key is the working copy with the URL from
      the form, renamed to the key and no longer temporary; it is also the new saved preset. */
  lemma SaveRecordsEditedCopy(parse: Parser, s: SessionState, duplicate: bool, nameText: string,
                              selected: Option<Cell>, urlText: string)
    requires Selectable(s.working, selected)
    requires NamesAgree(s)
    ensures var r := StoreUserPresetsSpec(parse, s, duplicate, nameText, selected, urlText);
      r.status.Ok? ==>
        && nameText in r.value.presets
        && r.value.presets[nameText] == r.value.saved == r.value.working
        && r.value.working == StoreUrlSpec(parse, s.working, selected, urlText).value.(name := nameText, temporary := false)
  {
    SaveEdit(parse, s, nameText, selected, urlText);
    var edited := StoreFormValuesSpec(parse, s.working, true, nameText, selected, urlText);
    CommitRecordsWorkingCopy(s.(working := edited.value), duplicate, nameText);
  }

  /** A commit touches no entry other than the key and, on a rename, the old key. */
  lemma CommitKeepsOtherEntries(s: SessionState, duplicate: bool, key: string)
    ensures var r := CommitSpec(s, duplicate, key);
      && r.value.presets.Keys <= s.presets.Keys + {key}
      && forall k | k in s.presets && k != key && k != s.saved.name :: k in r.value.presets && r.value.presets[k] == s.presets[k]
  {
  }

  /** Committing a temporary preset or a duplicate adds exactly one new key, below the
      limit, and leaves every earlier entry as it was. */
  lemma NewCommitAddsOneKey(s: SessionState, duplicate: bool, key: string)
    requires s.working.temporary || duplicate
    ensures var r := CommitSpec(s, duplicate, key);
      r.status.Ok? ==>
        && key !in s.presets && |s.presets| < MaxPreset
        && r.value.presets.Keys == s.presets.Keys + {key}
        && |r.value.presets| == |s.presets| + 1
        && forall k | k in s.presets :: r.value.presets[k] == s.presets[k]
  {
    AssignPresetOutcome(s.presets, s.working, key, false);
  }

  /** Overwriting a saved preset whose entry is still there keeps the number of entries; a
      rename drops the old key. */
  lemma OverwriteKeepsCount(s: SessionState, key: string)
    requires Coherent(s) && !s.working.temporary
    ensures var r := CommitSpec(s, false, key);
      r.status.Ok? ==>
        && |r.value.presets| == |s.presets|
        && (s.saved.name != key ==> s.saved.name !in r.value.presets)
  {
    var r := CommitSpec(s, false, key);
    if r.status.Ok? && s.saved.name != key {
      var removed := s.presets - {s.saved.name};
      assert removed.Keys == s.presets.Keys - {s.saved.name};
      assert |removed| == |s.presets| - 1;
    }
  }

  /** As written, an overwrite adds its key without the limit check even when the saved
      preset's name is no longer a key: a full dictionary then gets a 31st entry, whether the
      preset is saved under its old name or renamed to a free one. */
  lemma OverwriteCanExceedCapacity(s: SessionState, key: string)
    requires |s.presets| == MaxPreset
    requires !s.working.temporary && s.saved.name !in s.presets
    requires key !in s.presets && (key == s.saved.name || key != UnsetTitle)
    ensures var r := CommitSpec(s, false, key);
      r.status.Ok? && |r.value.presets| == MaxPreset + 1
  {
  }

  /** The commit as evidently intended: an overwrite skips the limit check only while the
      saved preset's entry is still there to be replaced; otherwise it is checked like a new
      entry. The two commits agree in every coherent session. */
  function CorrectedCommitSpec(s: SessionState, duplicate: bool, key: string): SessionStep
  {
    if s.working.temporary || duplicate then
      var outcome := AssignPresetSpec(s.presets, s.working, key, false);
      if outcome.status.Err? then Outcome(outcome.status, s.(working := outcome.value))
      else Committed(s.presets, key, outcome.value.(temporary := false))
    else if s.saved.name != key || s.saved.name !in s.presets then
      var outcome := AssignPresetSpec(s.presets, s.working, key, s.saved.name in s.presets);
      if outcome.status.Err? then Outcome(outcome.status, s.(working := outcome.value))
      else Committed(s.presets - {s.saved.name}, key, outcome.value)
    else
      Committed(s.presets, key, s.working)
  }

  /** The corrected commit never makes the dictionary exceed the limit. */
  lemma CommitRespectsCapacity(s: SessionState, duplicate: bool, key: string)
    requires |s.presets| <= MaxPreset
    ensures |CorrectedCommitSpec(s, duplicate, key).value.presets| <= MaxPreset
  {
    var r := CorrectedCommitSpec(s, duplicate, key);
    if r.status.Ok? && !(s.working.temporary || duplicate) && s.saved.name in s.presets && s.saved.name != key {
      var removed := s.presets - {s.saved.name};
      assert removed.Keys == s.presets.Keys - {s.saved.name};
      assert |removed| == |s.presets| - 1;
    }
  }

  /** In a coherent session the corrected commit behaves exactly like the source's. */
  lemma CorrectedCommitAgreesWhenCoherent(s: SessionState, duplicate: bool, key: string)
    requires Coherent(s)
    ensures CorrectedCommitSpec(s, duplicate, key) == CommitSpec(s, duplicate, key)
  {
  }

  /** So the source's commit keeps the limit in every coherent session. */
  lemma CommitRespectsCapacityWhenCoherent(s: SessionState, duplicate: bool, key: string)
    requires Coherent(s) && |s.presets| <= MaxPreset
    ensures |CommitSpec(s, duplicate, key).value.presets| <= MaxPreset
  {
    CorrectedCommitAgreesWhenCoherent(s, duplicate, key);
    CommitRespectsCapacity(s, duplicate, key);
  }

  /** In a coherent session no save makes the dictionary exceed the limit. */
  lemma SaveRespectsCapacity(parse: Parser, s: SessionState, duplicate: bool, nameText: string,
                             selected: Option<Cell>, urlText: string)
    requires Selectable(s.working, selected)
    requires Coherent(s) && |s.presets| <= MaxPreset
    ensures |StoreUserPresetsSpec(parse, s, duplicate, nameText, selected, urlText).value.presets| <= MaxPreset
  {
    SaveEdit(parse, s, nameText, selected, urlText);
    var edited := StoreFormValuesSpec(parse, s.working, true, nameText, selected, urlText);
    CommitRespectsCapacityWhenCoherent(s.(working := edited.value), duplicate, nameText);
  }

  /* ---------------- Duplicating ---------------- */

  /** The name after `n` rounds of `getCloneName`. */
  function CopyName(original: string, n: nat): string
  {
    if n == 0 then original else GetCloneName(CopyName(original, n - 1))
  }

  lemma {:induction false} CopyNameLength(original: string, n: nat)
    ensures |CopyName(original, n)| == |original| + n * |CopySuffix|
  {
    if n > 0 {
      CopyNameLength(original, n - 1);
    }
  }

  /** `c` is the first of `original`'s copy names that is not a key. */
  ghost predicate IsFirstFreeCopy(original: string, presets: map<string, PresetValue>, c: string)
  {
    exists n: nat :: 1 <= n && c == CopyName(original, n) && c !in presets
      && forall j: nat | 1 <= j < n :: CopyName(original, j) in presets
  }

  /** At most one name is the first free copy name. */
  lemma FirstFreeCopyIsUnique(original: string, presets: map<string, PresetValue>, c1: string, c2: string)
    requires IsFirstFreeCopy(original, presets, c1) && IsFirstFreeCopy(original, presets, c2)
    ensures c1 == c2
  {
    var n1: nat :| 1 <= n1 && c1 == CopyName(original, n1) && c1 !in presets
      && forall j: nat | 1 <= j < n1 :: CopyName(original, j) in presets;
    var n2: nat :| 1 <= n2 && c2 == CopyName(original, n2) && c2 !in presets
      && forall j: nat | 1 <= j < n2 :: CopyName(original, j) in presets;
    if n1 < n2 {
      assert false;
    } else if n2 < n1 {
      assert false;
    }
  }

  /** A first free copy name is never the reserved title. */
  lemma FirstFreeCopyIsNotUnsetTitle(original: string, presets: map<string, PresetValue>, c: string)
    requires IsFirstFreeCopy(original, presets, c)
    ensures c != UnsetTitle && c !in presets
  {
    var n: nat :| 1 <= n && c == CopyName(original, n) && c !in presets
      && forall j: nat | 1 <= j < n :: CopyName(original, j) in presets;
    CloneNameIsNotUnsetTitle(CopyName(original, n - 1));
  }

  /** A duplicate under the first free copy name succeeds exactly when the URL in the form
      is valid and the dictionary has room. */
  lemma DuplicateOutcome(parse: Parser, s: SessionState, cloneName: string, selected: Option<Cell>, urlText: string)
    requires Selectable(s.working, selected)
    requires IsFirstFreeCopy(s.working.name, s.presets, cloneName)
    ensures StoreUserPresetsSpec(parse, s, true, cloneName, selected, urlText).status.Ok?
        <==> StoreUrlSpec(parse, s.working, selected, urlText).status.Ok? && |s.presets| < MaxPreset
  {
    FirstFreeCopyIsNotUnsetTitle(s.working.name, s.presets, cloneName);
    SaveEdit(parse, s, cloneName, selected, urlText);
    var edited := StoreFormValuesSpec(parse, s.working, true, cloneName, selected, urlText);
    AssignPresetOutcome(s.presets, edited.value, cloneName, false);
  }

  /** A successful duplicate commit adds exactly the copy name, as a non-temporary copy of the
      working copy, and leaves every earlier entry, the original's among them, unchanged. */
  lemma DuplicateAddsOneKey(s: SessionState, cloneName: string)
    requires IsFirstFreeCopy(s.working.name, s.presets, cloneName)
    ensures var r := CommitSpec(s, true, cloneName);
      r.status.Ok? ==>
        && r.value.presets.Keys == s.presets.Keys + {cloneName}
        && |r.value.presets| == |s.presets| + 1
        && r.value.presets[cloneName] == s.working.(name := cloneName, temporary := false)
        && (forall k | k in s.presets :: r.value.presets[k] == s.presets[k])
  {
    NewCommitAddsOneKey(s, true, cloneName);
  }

  /* ---------------- Delete, select, resize, OK ---------------- */

  /** Deleting in a coherent session with a saved working copy removes that preset's entry
      and no other. */
  lemma DeleteOfSavedPreset(s: SessionState)
    requires Coherent(s) && !s.working.temporary
    ensures var d := DeleteSpec(s);
      && s.saved.name !in d.presets
      && |d.presets| == |s.presets| - 1
      && (forall k | k in s.presets && k != s.saved.name :: k in d.presets && d.presets[k] == s.presets[k])
      && d.working == d.saved == Default()
  {
    var removed := s.presets - {s.saved.name};
    assert removed.Keys == s.presets.Keys - {s.saved.name};
  }

  /** Resizing keeps every slot of the backing array, so shrinking then growing back
      restores the earlier cells. */
  lemma ResizeKeepsCells(p: PresetValue, rows: int, cols: int)
    ensures ResizeSpec(p, rows, cols).urls == p.urls
    ensures ResizeSpec(p, rows, cols).row == rows && ResizeSpec(p, rows, cols).col == cols
    ensures ResizeSpec(ResizeSpec(p, rows, cols), p.row, p.col) == p
  {
  }

  /** OK takes the name from the form only for a temporary preset, and does so even when the
      URL check then throws; a throwing OK leaves every cell as it was. */
  lemma OkNaming(parse: Parser, p: PresetValue, nameText: string, selected: Option<Cell>, urlText: string)
    requires Selectable(p, selected)
    ensures var r := OkSpec(parse, p, nameText, selected, urlText);
      && r.value.name == (if p.temporary then nameText else p.name)
      && r.value.temporary == p.temporary && r.value.row == p.row && r.value.col == p.col
      && (r.status.Err? ==> r.value.urls == p.urls)
  {
  }

  /* ---------------- Coherence is kept ---------------- */

  /** A commit keeps the session coherent and full-sized. */
  lemma CommitKeepsCoherent(s: SessionState, duplicate: bool, key: string)
    requires Coherent(s)
    ensures Coherent(CommitSpec(s, duplicate, key).value)
    ensures FullSized(s) ==> FullSized(CommitSpec(s, duplicate, key).value)
  {
    CommitFailureChangesNothing(s, duplicate, key);
  }

  lemma SaveKeepsCoherent(parse: Parser, s: SessionState, duplicate: bool, nameText: string,
                          selected: Option<Cell>, urlText: string)
    requires Selectable(s.working, selected) && Coherent(s)
    ensures Coherent(StoreUserPresetsSpec(parse, s, duplicate, nameText, selected, urlText).value)
    ensures FullSized(s) ==> FullSized(StoreUserPresetsSpec(parse, s, duplicate, nameText, selected, urlText).value)
  {
    SaveEdit(parse, s, nameText, selected, urlText);
    StoreUrlOnlyTouchesSelectedCell(parse, s.working, selected, urlText);
    var edited := StoreFormValuesSpec(parse, s.working, true, nameText, selected, urlText);
    CommitKeepsCoherent(s.(working := edited.value), duplicate, nameText);
  }

  lemma DeleteKeepsCoherent(s: SessionState)
    requires Coherent(s)
    ensures Coherent(DeleteSpec(s))
    ensures FullSized(s) ==> FullSized(DeleteSpec(s))
  {
    DefaultShape();
  }

  lemma SelectKeepsCoherent(s: SessionState, title: Option<string>)
    requires Coherent(s) && (title.Some? ==> title.value in s.presets)
    ensures Coherent(SelectSpec(s, title))
    ensures FullSized(s) ==> FullSized(SelectSpec(s, title))
  {
    DefaultShape();
  }

  /** Cell edits, resizing and a throwing OK keep the session coherent and full-sized. */
  lemma EditsKeepCoherent(parse: Parser, s: SessionState, nameText: string, selected: Option<Cell>, urlText: string,
                          rows: int, cols: int)
    requires Selectable(s.working, selected) && Coherent(s)
    ensures Coherent(s.(working := StoreUrlSpec(parse, s.working, selected, urlText).value))
    ensures Coherent(s.(working := ResizeSpec(s.working, rows, cols)))
    ensures Coherent(s.(working := OkSpec(parse, s.working, nameText, selected, urlText).value))
    ensures FullSized(s) ==> FullSized(s.(working := StoreUrlSpec(parse, s.working, selected, urlText).value))
    ensures FullSized(s) ==> FullSized(s.(working := ResizeSpec(s.working, rows, cols)))
    ensures FullSized(s) ==> FullSized(s.(working := OkSpec(parse, s.working, nameText, selected, urlText).value))
  {
    StoreUrlOnlyTouchesSelectedCell(parse, s.working, selected, urlText);
  }

  /* ---------------- Names agree in every reachable session ---------------- */

  /** `changePreset` makes the saved preset and the working copy equal, so loading the
      store, reloading, selecting and deleting all start from a session whose names agree. */
  lemma NamesAgreeIsReached(s: SessionState, instance: PresetValue, title: Option<string>)
    requires title.Some? ==> title.value in s.presets
    ensures NamesAgree(ChangePresetSpec(s, instance))
    ensures NamesAgree(DeleteSpec(s))
    ensures NamesAgree(SelectSpec(s, title))
  {
  }

  /** A save keeps the names in agreement, whether it succeeds or throws. */
  lemma SaveKeepsNamesAgree(parse: Parser, s: SessionState, duplicate: bool, nameText: string,
                            selected: Option<Cell>, urlText: string)
    requires Selectable(s.working, selected) && NamesAgree(s)
    ensures NamesAgree(StoreUserPresetsSpec(parse, s, duplicate, nameText, selected, urlText).value)
  {
    SaveEdit(parse, s, nameText, selected, urlText);
    var edited := StoreFormValuesSpec(parse, s.working, true, nameText, selected, urlText);
    CommitFailureChangesNothing(s.(working := edited.value), duplicate, nameText);
  }

  /** Cell edits, resizing and OK keep the names in agreement: OK renames only a temporary preset. */
  lemma EditsKeepNamesAgree(parse: Parser, s: SessionState, nameText: string, selected: Option<Cell>, urlText: string,
                            rows: int, cols: int)
    requires Selectable(s.working, selected) && NamesAgree(s)
    ensures NamesAgree(s.(working := StoreUrlSpec(parse, s.working, selected, urlText).value))
    ensures NamesAgree(s.(working := ResizeSpec(s.working, rows, cols)))
    ensures NamesAgree(s.(working := OkSpec(parse, s.working, nameText, selected, urlText).value))
  {
    StoreUrlOnlyTouchesSelectedCell(parse, s.working, selected, urlText);
    OkNaming(parse, s.working, nameText, selected, urlText);
  }
}
