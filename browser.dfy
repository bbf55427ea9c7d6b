/** The part of SplitBrowser/BrowserViewController.swift that works on presets: the
    reconciliation of the store at start-up and the cell-to-slot mapping of the grid. */
module Browser {
  import opened Wrappers
  import opened Urls
  import opened Presets
  import opened PresetManagement

  /** The store after the two create-if-unset calls. */
  function Seeded(d: Defaults): (r: Defaults)
    ensures CurrentPresetKey in r && UserPresetsKey in r
  {
    var withCurrent := if CurrentPresetKey in d then d else WithCurrent(d, Default());
    if UserPresetsKey in withCurrent then withCurrent else WithDictionary(withCurrent, map[])
  }

  /** Seeding keeps a current preset that is there, and otherwise writes `Preset()`. */
  lemma SeededCurrent(d: Defaults, parse: Parser)
    ensures CurrentPresetKey in d ==> LoadedCurrent(Seeded(d), parse) == LoadedCurrent(d, parse)
    ensures CurrentPresetKey !in d ==> Seeded(d)[CurrentPresetKey] == PresetArchive(Encode(Default()))
  {
  }

  /** Seeding changes nothing once both records are there. */
  lemma SeededWhenPresent(d: Defaults)
    requires CurrentPresetKey in d && UserPresetsKey in d
    ensures Seeded(d) == d
  {
  }

  /** Start-up does not trap: the current preset can be read back after seeding. */
  predicate StartupReady(d: Defaults, parse: Parser)
  {
    LoadedCurrent(Seeded(d), parse).Some?
  }

  /** The store after `viewDidLoad` lines 19-23: seed both records, then replace a
      temporary current preset by `Preset()`. */
  function StartupSpec(d: Defaults, parse: Parser): Defaults
    requires StartupReady(d, parse)
  {
    var seeded := Seeded(d);
    if LoadedCurrent(seeded, parse).value.temporary then WithCurrent(seeded, Default()) else seeded
  }

  /** `viewDidLoad`, as far as the store is concerned. */
  method Startup(manager: PresetManager, parse: Parser)
    requires StartupReady(manager.defaults, parse)
    modifies manager
    ensures manager.defaults == StartupSpec(old(manager.defaults), parse)
    ensures manager.pool == old(manager.pool)
  {
    manager.CreateCurrentPresetIfUnset();
    manager.CreateUserPresetsDictionaryIfUnset();
    var current := manager.LoadCurrentPreset(parse);
    if current.temporary {
      manager.StoreCurrentPreset(Default());
    }
  }

  /** After start-up both records are present; a dictionary that was there is kept as it was,
      and so is a current preset that was there and is not temporary. */
  lemma StartupSeedsAndKeeps(d: Defaults, parse: Parser)
    requires StartupReady(d, parse)
    ensures var r := StartupSpec(d, parse);
      && CurrentPresetKey in r && UserPresetsKey in r
      && (UserPresetsKey in d ==> r[UserPresetsKey] == d[UserPresetsKey])
      && (UserPresetsKey !in d ==> r[UserPresetsKey] == DictionaryArchive(map[]))
      && (CurrentPresetKey in d && !LoadedCurrent(d, parse).value.temporary ==> r[CurrentPresetKey] == d[CurrentPresetKey])
  {
    assert LoadedCurrent(Seeded(d), parse) == LoadedCurrent(d, parse) || CurrentPresetKey !in d;
  }

  /** A temporary current preset (or a missing one) is replaced by `Preset()`, which then
      loads back as the default. */
  lemma StartupResetsTemporary(d: Defaults, parse: Parser)
    requires StartupReady(d, parse)
    requires parse(DefaultUrlFormValue) == Some(DefaultUrl)
    ensures CurrentPresetKey !in d || LoadedCurrent(d, parse).value.temporary ==>
      LoadedCurrent(StartupSpec(d, parse), parse) == Some(Default())
    ensures CurrentPresetKey in d && !LoadedCurrent(d, parse).value.temporary ==>
      LoadedCurrent(StartupSpec(d, parse), parse) == LoadedCurrent(d, parse)
  {
    var seeded := Seeded(d);
    SeededCurrent(d, parse);
    if LoadedCurrent(seeded, parse).value.temporary {
      StoreDefaultThenLoad(seeded, parse);
    }
  }

  /** Running start-up twice leaves the store as running it once, because the default
      preset it writes is itself temporary. */
  lemma StartupIdempotent(d: Defaults, parse: Parser)
    requires StartupReady(d, parse)
    requires parse(DefaultUrlFormValue) == Some(DefaultUrl)
    ensures StartupReady(StartupSpec(d, parse), parse)
    ensures StartupSpec(StartupSpec(d, parse), parse) == StartupSpec(d, parse)
  {
    var seeded := Seeded(d);
    var r := StartupSpec(d, parse);
    SeededWhenPresent(r);
    SeededCurrent(d, parse);
    if LoadedCurrent(seeded, parse).value.temporary {
      StoreDefaultThenLoad(seeded, parse);
      StoreCurrentAgain(WithCurrent(seeded, Default()), Default());
    }
  }

  /** A preset committed with OK survives the next launch only if it was saved: an unsaved
      (temporary) working copy is replaced by `Preset()`. */
  lemma ConfirmedPresetAfterRelaunch(d: Defaults, p: PresetValue, parse: Parser)
    requires RoundTrips(parse, p.urls) && parse(DefaultUrlFormValue) == Some(DefaultUrl)
    ensures StartupReady(WithCurrent(d, p), parse)
    ensures LoadedCurrent(StartupSpec(WithCurrent(d, p), parse), parse) == Some(if p.temporary then Default() else p)
  {
    StoreThenLoadCurrent(d, p, parse);
    StartupResetsTemporary(WithCurrent(d, p), parse);
  }

  /** The URL the browser cell (`section`, `item`) loads: the grid is at most 5 x 5, so
      the backing index is always one of the 25 slots. */
  function CellUrl(p: PresetValue, section: int, item: int): (u: Url)
    requires 0 <= section < p.row <= MaxRow && 0 <= item < p.col <= MaxCol
    requires |p.urls| == Capacity
    ensures 0 <= BackingIndex(item, section) < Capacity
    ensures u == p.urls[section * MaxCol + item]
  {
    p.urls[BackingIndex(item, section)]
  }
}
