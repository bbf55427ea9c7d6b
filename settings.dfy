/** `SettingViewController` without its views: the presets it edits, with the form contents
    and the selected cell passed in by the caller. */
module Settings {
  import opened Wrappers
  import opened Urls
  import opened Presets
  import opened PresetManagement
  import opened SettingsSpec

  class SettingSession {
    var savedPreset: PresetValue
    var preset: Preset
    var userPresets: map<string, PresetValue>
    const manager: PresetManager
    const parse: Parser

    /** The session as the values the specification functions work on. */
    function State(): SessionState
      reads this, preset, preset.urls
    {
      SessionState(savedPreset, preset.Value(), userPresets)
    }

    /** `viewDidLoad()`: the current preset and the user presets are read from the store; the
        saved preset and the working copy start out equal, so their names agree. */
    constructor (manager: PresetManager, parse: Parser)
      requires LoadedCurrent(manager.defaults, parse).Some? && LoadedDictionary(manager.defaults, parse).Some?
      ensures this.manager == manager && this.parse == parse
      ensures fresh(preset) && fresh(preset.urls)
      ensures State() == SessionState(LoadedCurrent(manager.defaults, parse).value, LoadedCurrent(manager.defaults, parse).value,
                                      LoadedDictionary(manager.defaults, parse).value)
      ensures NamesAgree(State())
    {
      this.manager := manager;
      this.parse := parse;
      var current := manager.LoadCurrentPreset(parse);
      savedPreset := current;
      preset := new Preset.Copy(current);
      var dictionary := manager.LoadUserPresets(parse);
      userPresets := dictionary;
    }

    /** `changePreset(instance:)`. */
    method ChangePreset(instance: PresetValue)
      modifies this
      ensures fresh(preset) && fresh(preset.urls)
      ensures State() == ChangePresetSpec(old(State()), instance)
    {
      savedPreset := instance;
      preset := new Preset.Copy(instance);
    }

    /** `reloadAll()`: back to `Preset()` with the user presets re-read from the store. */
    method ReloadAll()
      requires LoadedDictionary(manager.defaults, parse).Some?
      modifies this
      ensures fresh(preset) && fresh(preset.urls)
      ensures State() == SessionState(Default(), Default(), LoadedDictionary(manager.defaults, parse).value)
    {
      ChangePreset(Default());
      var dictionary := manager.LoadUserPresets(parse);
      userPresets := dictionary;
    }

    /** `forceStoreUrl(string:)` for the selected cell. */
    method ForceStoreUrl(c: Cell, text: string) returns (st: Status)
      requires CellAddressable(preset.Value(), c)
      modifies preset.urls
      ensures Outcome(st, State()) == Outcome(ForceStoreUrlSpec(parse, old(State()).working, c, text).status,
                                old(State()).(working := ForceStoreUrlSpec(parse, old(State()).working, c, text).value))
    {
      var urlObj := parse(text);
      if urlObj.None? {
        return Err(InvalidUrlMessage(text));
      }
      preset.SetUrl(urlObj.value, c.item, c.section);
      st := Ok;
    }

    /** `storeUrl()`. */
    method StoreUrl(selected: Option<Cell>, text: string) returns (st: Status)
      requires Selectable(preset.Value(), selected)
      modifies preset.urls
      ensures Outcome(st, State()) == Outcome(StoreUrlSpec(parse, old(State()).working, selected, text).status,
                                old(State()).(working := StoreUrlSpec(parse, old(State()).working, selected, text).value))
    {
      if selected.None? {
        return Ok;
      }
      if IsPrefix("http:", text) || IsPrefix("https:", text) {
        st := ForceStoreUrl(selected.value, text);
      } else {
        var currentUrl := preset.LoadUrl(selected.value.item, selected.value.section);
        if !(currentUrl.isFile && text == LastPathComponent(currentUrl.str)) {
          return Err(InvalidUrlMessage(text));
        }
        st := Ok;
      }
    }

    /** `storeFormValues(exceptName:)`. */
    method StoreFormValues(exceptName: bool, nameText: string, selected: Option<Cell>, urlText: string) returns (st: Status)
      requires Selectable(preset.Value(), selected)
      modifies preset, preset.urls
      ensures Outcome(st, State()) == Outcome(StoreFormValuesSpec(parse, old(State()).working, exceptName, nameText, selected, urlText).status,
                                old(State()).(working := StoreFormValuesSpec(parse, old(State()).working, exceptName, nameText, selected, urlText).value))
    {
      if !exceptName {
        preset.name := nameText;
      }
      st := StoreUrl(selected, urlText);
    }

    /** `storeFileUrl(string:)`: the `try!` traps unless the text parses. */
    method StoreFileUrl(c: Cell, text: string)
      requires CellAddressable(preset.Value(), c) && parse(text).Some?
      modifies preset.urls
      ensures State() == old(State()).(working := WithUrl(old(State()).working, c.item, c.section, parse(text).value))
    {
      var st := ForceStoreUrl(c, text);
    }

    /** `assignPreset(key:overwrite:)`. */
    method AssignPreset(key: string, overwrite: bool) returns (st: Status)
      modifies preset
      ensures Outcome(st, State()) == Outcome(AssignPresetSpec(userPresets, old(State()).working, key, overwrite).status,
                                old(State()).(working := AssignPresetSpec(userPresets, old(State()).working, key, overwrite).value))
    {
      if !overwrite && |userPresets| >= MaxPreset {
        return Err(LimitMessage);
      }
      if key in userPresets || key == UnsetTitle {
        return Err(NameTakenMessage(key));
      }
      preset.name := key;
      st := Ok;
    }

    /** `storeUserPresets(duplicate:)`, with the key read from the name form: the form
        values are written, then the working copy is committed. */
    method StoreUserPresets(duplicate: bool, nameText: string, selected: Option<Cell>, urlText: string) returns (st: Status)
      requires Selectable(preset.Value(), selected)
      modifies this, preset, preset.urls, manager
      ensures Outcome(st, State()) == StoreUserPresetsSpec(parse, old(State()), duplicate, nameText, selected, urlText)
      ensures st.Ok? ==> manager.defaults == WithDictionary(old(manager.defaults), userPresets)
      ensures st.Err? ==> manager.defaults == old(manager.defaults)
      ensures manager.pool == old(manager.pool)
      ensures preset == old(preset) || (fresh(preset) && fresh(preset.urls))
    {
      st := StoreFormValues(true, nameText, selected, urlText);
      if st.Err? {
        return;
      }
      st := Commit(duplicate, nameText);
    }

    /** Lines 201-219 of `storeUserPresets`: the name and limit checks, then the commit under
        `key`. A successful commit persists the whole dictionary. */
    method Commit(duplicate: bool, key: string) returns (st: Status)
      modifies this, preset, manager
      ensures Outcome(st, State()) == CommitSpec(old(State()), duplicate, key)
      ensures st.Ok? ==> manager.defaults == WithDictionary(old(manager.defaults), userPresets)
      ensures st.Err? ==> manager.defaults == old(manager.defaults)
      ensures manager.pool == old(manager.pool)
      ensures preset == old(preset) || (fresh(preset) && fresh(preset.urls))
    {
      if preset.temporary || duplicate {
        st := AssignPreset(key, false);
        if st.Err? {
          return;
        }
        if duplicate {
          preset := preset.Clone();
        }
        preset.temporary := false;
      } else {
        var previousKey := savedPreset.name;
        if previousKey != key {
          st := AssignPreset(key, true);
          if st.Err? {
            return;
          }
          userPresets := userPresets - {previousKey};
        }
      }
      st := Record(key);
    }

    /** Lines 217-219 of `storeUserPresets`: a copy of the working copy becomes the saved
        preset and the entry under `key`, and the dictionary is persisted. */
    method Record(key: string) returns (st: Status)
      modifies this, manager
      ensures Outcome(st, State()) == Committed(old(userPresets), key, preset.Value())
      ensures manager.defaults == WithDictionary(old(manager.defaults), userPresets)
      ensures manager.pool == old(manager.pool)
      ensures preset == old(preset)
    {
      savedPreset := preset.Value();
      userPresets := userPresets[key := savedPreset];
      manager.StoreUserPresets(userPresets);
      st := Ok;
    }

    /** The first copy name of the working copy that is not yet a key: `getCloneName` is
        applied at least once and until the name is free. */
    method FindCloneName() returns (cloneName: string)
      ensures IsFirstFreeCopy(preset.name, userPresets, cloneName)
    {
      ghost var original := preset.name;
      ghost var n: nat := 1;
      ghost var seen: set<string> := {};
      cloneName := GetCloneName(preset.name);
      CopyNameLength(original, 1);
      while cloneName in userPresets
        invariant 1 <= n && cloneName == CopyName(original, n)
        invariant |cloneName| == |original| + n * |CopySuffix|
        invariant forall j: nat | 1 <= j < n :: CopyName(original, j) in userPresets
        invariant seen <= userPresets.Keys
        invariant forall x | x in seen :: |x| < |cloneName|
        decreases userPresets.Keys - seen
      {
        seen := seen + {cloneName};
        cloneName := GetCloneName(cloneName);
        n := n + 1;
      }
    }

    /** The delete button: removes the working copy's name from the user presets, persists
        them and starts over from `Preset()`. */
    method Delete()
      modifies this, manager
      ensures fresh(preset) && fresh(preset.urls)
      ensures State() == DeleteSpec(old(State()))
      ensures manager.defaults == WithDictionary(old(manager.defaults), userPresets)
      ensures manager.pool == old(manager.pool)
    {
      userPresets := userPresets - {preset.name};
      manager.StoreUserPresets(userPresets);
      ChangePreset(Default());
    }

    /** The duplicate button: saves the working copy as a new entry under the first free copy name. */
    method Duplicate(selected: Option<Cell>, urlText: string) returns (st: Status, cloneName: string)
      requires Selectable(preset.Value(), selected)
      modifies this, preset, preset.urls, manager
      ensures IsFirstFreeCopy(old(State()).working.name, old(userPresets), cloneName)
      ensures Outcome(st, State()) == StoreUserPresetsSpec(parse, old(State()), true, cloneName, selected, urlText)
      ensures st.Ok? ==> manager.defaults == WithDictionary(old(manager.defaults), userPresets)
      ensures st.Err? ==> manager.defaults == old(manager.defaults)
      ensures manager.pool == old(manager.pool)
      ensures preset == old(preset) || (fresh(preset) && fresh(preset.urls))
    {
      cloneName := FindCloneName();
      st := StoreUserPresets(true, cloneName, selected, urlText);
    }

    /** `selectedPreset`: `None` is the first popup item; any other title must be a key,
        as the source asserts. */
    method Select(title: Option<string>)
      requires title.Some? ==> title.value in userPresets
      modifies this
      ensures fresh(preset) && fresh(preset.urls)
      ensures State() == SelectSpec(old(State()), title)
    {
      if title.None? {
        ChangePreset(Default());
      } else {
        ChangePreset(userPresets[title.value]);
      }
    }

    /** `clickedChangeSizeButton`: the size forms hold values from 1 to the grid maximum. */
    method Resize(rows: int, cols: int)
      requires 1 <= rows <= MaxRow && 1 <= cols <= MaxCol
      modifies preset
      ensures State() == old(State()).(working := ResizeSpec(old(State()).working, rows, cols))
    {
      preset.row := rows;
      preset.col := cols;
    }

    /** `clickedOk`: on success the working copy becomes the current preset in the store. */
    method Confirm(nameText: string, selected: Option<Cell>, urlText: string) returns (st: Status)
      requires Selectable(preset.Value(), selected)
      modifies preset, preset.urls, manager
      ensures Outcome(st, State()) == Outcome(OkSpec(parse, old(State()).working, nameText, selected, urlText).status,
                                old(State()).(working := OkSpec(parse, old(State()).working, nameText, selected, urlText).value))
      ensures st.Ok? ==> manager.defaults == WithCurrent(old(manager.defaults), preset.Value())
      ensures st.Err? ==> manager.defaults == old(manager.defaults)
      ensures manager.pool == old(manager.pool)
    {
      st := StoreFormValues(!preset.temporary, nameText, selected, urlText);
      if st.Err? {
        return;
      }
      manager.StoreCurrentPreset(preset.Value());
    }

    /** `clickedFileChooserButton` after the panel returned `src`: the file is staged in the
        pool and, when that worked, its pool URL is force-written into the selected cell. */
    method ChooseLocalFile(c: Cell, src: Url, contents: Result<Bytes>, home: Url) returns (st: Status)
      requires CellAddressable(preset.Value(), c)
      requires contents.Success? ==> parse(GetLocalFileUrl(home, LastPathComponent(src.str)).str).Some?
      requires IsPoolCopy(home, src) ==> contents.Failure?
      modifies preset.urls, manager
      ensures st.Ok? <==> contents.Success?
      ensures manager.pool == StagedPool(old(manager.pool), LastPathComponent(src.str), contents)
      ensures IsPoolCopy(home, src) ==> st.Err? && LastPathComponent(src.str) !in manager.pool
      ensures manager.defaults == old(manager.defaults)
      ensures State() == if st.Ok?
        then old(State()).(working := WithUrl(old(State()).working, c.item, c.section,
                                              parse(GetLocalFileUrl(home, LastPathComponent(src.str)).str).value))
        else old(State())
    {
      st := manager.StoreLocalFile(src, contents, IsPoolCopy(home, src));
      if st.Err? {
        return;
      }
      var localUrl := GetLocalFileUrl(home, LastPathComponent(src.str));
      StoreFileUrl(c, localUrl.str);
    }
  }
}
