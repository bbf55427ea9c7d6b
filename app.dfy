/** The "reset all data" action of SplitBrowser/AppDelegate.swift. */
module App {
  import opened Wrappers
  import opened Urls
  import opened Presets
  import opened PresetManagement
  import opened Browser

  /** Both records overwritten: `Preset()` as the current preset, no user presets. */
  function ResetSpec(d: Defaults): Defaults
  {
    WithDictionary(WithCurrent(d, Default()), map[])
  }

  /** `resetAllData(_:)`, without the reload of the window shown. */
  method ResetAllData(manager: PresetManager)
    modifies manager
    ensures manager.defaults == ResetSpec(old(manager.defaults))
    ensures manager.pool == old(manager.pool)
  {
    manager.StoreCurrentPreset(Default());
    manager.StoreUserPresets(map[]);
  }

  /** After a reset the current preset loads as `Preset()` and the dictionary as empty,
      whatever was stored before. */
  lemma ResetLoads(d: Defaults, parse: Parser)
    requires parse(DefaultUrlFormValue) == Some(DefaultUrl)
    ensures LoadedCurrent(ResetSpec(d), parse) == Some(Default())
    ensures LoadedDictionary(ResetSpec(d), parse) == Some(map[])
  {
    StoreDefaultThenLoad(d, parse);
    StoreThenLoadDictionary(WithCurrent(d, Default()), map[], parse);
  }

  /** Start-up after a reset changes nothing more. */
  lemma ResetThenStartup(d: Defaults, parse: Parser)
    requires parse(DefaultUrlFormValue) == Some(DefaultUrl)
    ensures StartupReady(ResetSpec(d), parse)
    ensures StartupSpec(ResetSpec(d), parse) == ResetSpec(d)
  {
    ResetLoads(d, parse);
    var r := ResetSpec(d);
    SeededWhenPresent(r);
    StoreCurrentAgain(r, Default());
  }
}
