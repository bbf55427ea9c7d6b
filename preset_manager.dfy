/** `PresetManager` of SplitBrowser/Preset.swift: the two records kept in the user
    defaults, the local file pool and the naming and display helpers. */
module PresetManagement {
  import opened Wrappers
  import opened Urls
  import opened Presets

  /** The two user-defaults keys the application uses, `"currentPreset"` and `"userPresets"`:
      distinct strings, so distinct constructors here. */
  datatype Key = CurrentPresetKey | UserPresetsKey

  /** Most user presets that may be saved. */
  const MaxPreset := 30
  /** Title shown for a preset that has not been saved; never allowed as a preset name. */
  const UnsetTitle := "新規プリセット"
  const CopySuffix := "のコピー"

  /** What the archiver leaves in a user-defaults entry: one preset or a name-to-preset dictionary. */
  datatype Archive = PresetArchive(record: PresetRecord) | DictionaryArchive(records: map<string, PresetRecord>)

  /** The user defaults, on the two keys the application uses: key to archived data. */
  type Defaults = map<Key, Archive>

  type Bytes = seq<bv8>

  /* ---------------- Archiving dictionaries ---------------- */

  function EncodeAll(d: map<string, PresetValue>): map<string, PresetRecord>
  {
    map k | k in d :: Encode(d[k])
  }

  /** Unarchiving `[String: Preset]`; `None` where a preset in it would trap. */
  function DecodeAll(parse: Parser, records: map<string, PresetRecord>): (r: Option<map<string, PresetValue>>)
    ensures r.Some? <==> forall k | k in records :: Decode(parse, records[k]).Some?
    ensures r.Some? ==> r.value.Keys == records.Keys && forall k | k in records :: Decode(parse, records[k]) == Some(r.value[k])
  {
    if forall k | k in records :: Decode(parse, records[k]).Some? then
      Some(map k | k in records :: Decode(parse, records[k]).value)
    else
      None
  }

  /** What `loadCurrentPreset()` returns; `None` where it traps (no entry, wrong kind of
      archive, a URL that does not parse). */
  function LoadedCurrent(d: Defaults, parse: Parser): Option<PresetValue>
  {
    if CurrentPresetKey in d && d[CurrentPresetKey].PresetArchive? then Decode(parse, d[CurrentPresetKey].record)
    else None
  }

  /** What `loadUserPresets()` returns; `None` where it traps. */
  function LoadedDictionary(d: Defaults, parse: Parser): Option<map<string, PresetValue>>
  {
    if UserPresetsKey in d && d[UserPresetsKey].DictionaryArchive? then DecodeAll(parse, d[UserPresetsKey].records)
    else None
  }

  /** The defaults after `storeCurrentPreset(instance: p)`. */
  function WithCurrent(d: Defaults, p: PresetValue): Defaults
  {
    d[CurrentPresetKey := PresetArchive(Encode(p))]
  }

  /** The defaults after `storeUserPresets(dictionary: m)`: the whole record is replaced. */
  function WithDictionary(d: Defaults, m: map<string, PresetValue>): Defaults
  {
    d[UserPresetsKey := DictionaryArchive(EncodeAll(m))]
  }

  /** Storing then loading the current preset gives it back; the dictionary record is untouched. */
  lemma StoreThenLoadCurrent(d: Defaults, p: PresetValue, parse: Parser)
    requires RoundTrips(parse, p.urls)
    ensures LoadedCurrent(WithCurrent(d, p), parse) == Some(p)
    ensures LoadedDictionary(WithCurrent(d, p), parse) == LoadedDictionary(d, parse)
  {
    ArchiveRoundTrip(parse, p);
  }

  /** `Preset()` stored as the current preset loads back as itself. */
  lemma StoreDefaultThenLoad(d: Defaults, parse: Parser)
    requires parse(DefaultUrlFormValue) == Some(DefaultUrl)
    ensures LoadedCurrent(WithCurrent(d, Default()), parse) == Some(Default())
  {
    DefaultRoundTrip(parse);
  }

  /** Storing the preset the current record already holds changes nothing. */
  lemma StoreCurrentAgain(d: Defaults, p: PresetValue)
    requires CurrentPresetKey in d && d[CurrentPresetKey] == PresetArchive(Encode(p))
    ensures WithCurrent(d, p) == d
  {
  }

  /** Storing then loading the dictionary gives exactly that dictionary back: no entry of the
      previous record survives. The current preset record is untouched. */
  lemma StoreThenLoadDictionary(d: Defaults, m: map<string, PresetValue>, parse: Parser)
    requires forall k | k in m :: RoundTrips(parse, m[k].urls)
    ensures LoadedDictionary(WithDictionary(d, m), parse) == Some(m)
    ensures LoadedCurrent(WithDictionary(d, m), parse) == LoadedCurrent(d, parse)
  {
    var records := EncodeAll(m);
    forall k | k in records ensures Decode(parse, records[k]) == Some(m[k]) {
      ArchiveRoundTrip(parse, m[k]);
    }
    var r := DecodeAll(parse, records);
    assert r.Some?;
    assert r.value == m;
  }

  /* ---------------- Pure helpers ---------------- */

  /** `getCloneName(original:)`: the name proposed for a copy. */
  function GetCloneName(original: string): (r: string)
    ensures IsPrefix(original, r) && |r| == |original| + |CopySuffix|
    ensures r[|original|..] == CopySuffix
  {
    original + CopySuffix
  }

  /** A proposed copy name is never the reserved title of unsaved presets. */
  lemma CloneNameIsNotUnsetTitle(original: string)
    ensures GetCloneName(original) != UnsetTitle
  {
    var r := GetCloneName(original);
    assert r[|r| - 1] == 'ー';
    assert UnsetTitle[|UnsetTitle| - 1] == 'ト';
  }

  /** `getDisplayUrl(instance:)`: the file name for a file URL, the whole text otherwise. */
  function GetDisplayUrl(instance: Url): (r: string)
    ensures instance.isFile ==> r == LastPathComponent(instance.str)
    ensures instance.isFile ==> '/' !in r && |r| <= |instance.str| && r == instance.str[|instance.str| - |r|..]
    ensures instance.isFile ==> |r| == |instance.str| || instance.str[|instance.str| - |r| - 1] == '/'
    ensures !instance.isFile ==> r == instance.str
  {
    if instance.isFile then LastPathComponent(instance.str) else instance.str
  }

  /** `localFilePoolUrl`: `~/Library/LocalFilePool`, for the given home directory URL. */
  function LocalFilePoolUrl(home: Url): (r: Url)
    ensures r.isFile == home.isFile
    ensures IsPrefix(home.str, r.str)
  {
    var library := AppendingPathComponent(home, "Library");
    var pool := AppendingPathComponent(library, "LocalFilePool");
    assert pool.str[..|home.str|] == pool.str[..|library.str|][..|home.str|];
    pool
  }

  /** The pool directory is the `LocalFilePool` entry of `~/Library`. */
  lemma LocalFilePoolIsNamed(home: Url)
    ensures LastPathComponent(LocalFilePoolUrl(home).str) == "LocalFilePool"
  {
    var library := AppendingPathComponent(home, "Library");
    var name := "LocalFilePool";
    assert forall i | 0 <= i < |name| :: name[i] != '/';
    AppendedComponentIsLast(library, name);
  }

  /** `getLocalFileUrl(string:)`: where the pool keeps the copy of a file of that name. */
  function GetLocalFileUrl(home: Url, name: string): (r: Url)
    ensures r.isFile == home.isFile
    ensures IsPrefix(LocalFilePoolUrl(home).str, r.str)
  {
    AppendingPathComponent(LocalFilePoolUrl(home), name)
  }

  /** `src` is itself the pool's copy of the file it names: removing that copy removes `src`. */
  predicate IsPoolCopy(home: Url, src: Url)
  {
    src.str == GetLocalFileUrl(home, LastPathComponent(src.str)).str
  }

  /** A copy in the pool is shown under the name of the file it copies. */
  lemma LocalFileShowsItsName(home: Url, name: string)
    requires home.isFile && '/' !in name
    ensures GetLocalFileUrl(home, name).isFile
    ensures LastPathComponent(GetLocalFileUrl(home, name).str) == name
    ensures GetDisplayUrl(GetLocalFileUrl(home, name)) == name
  {
    AppendedComponentIsLast(LocalFilePoolUrl(home), name);
  }

  /** Every URL the pool hands out is a pool copy: choosing it again re-stages the same file. */
  lemma PoolUrlIsPoolCopy(home: Url, name: string)
    requires '/' !in name
    ensures IsPoolCopy(home, GetLocalFileUrl(home, name))
  {
    AppendedComponentIsLast(LocalFilePoolUrl(home), name);
  }

  /** The pool after `storeLocalFile` of a file called `name` whose read gave `contents`: an
      earlier file of that name is removed first, so a failed read leaves none. */
  function StagedPool(pool: map<string, Bytes>, name: string, contents: Result<Bytes>): (r: map<string, Bytes>)
    ensures name in r <==> contents.Success?
    ensures contents.Success? ==> r[name] == contents.value
    ensures forall k | k != name :: (k in r <==> k in pool) && (k in r ==> r[k] == pool[k])
  {
    var removed := pool - {name};
    if contents.Success? then removed[name := contents.value] else removed
  }

  /** Staging a file of the same name again replaces the earlier copy: the last one wins. */
  lemma {:induction false} LastStagedWins(pool: map<string, Bytes>, name: string, first: Result<Bytes>, again: Bytes)
    ensures StagedPool(StagedPool(pool, name, first), name, Success(again)) == StagedPool(pool, name, Success(again))
  {
    var a := StagedPool(StagedPool(pool, name, first), name, Success(again));
    var b := StagedPool(pool, name, Success(again));
    assert a.Keys == b.Keys;
  }

  /* ---------------- The store ---------------- */

  /** The persistent state `PresetManager` works on: the user defaults and the files in the
      local file pool, by file name. */
  class PresetManager {
    var defaults: Defaults
    var pool: map<string, Bytes>

    constructor (defaults: Defaults, pool: map<string, Bytes>)
      ensures this.defaults == defaults && this.pool == pool
    {
      this.defaults := defaults;
      this.pool := pool;
    }

    /** `createCurrentPresetIfUnset()`: seeds `Preset()` only when the key is absent. */
    method CreateCurrentPresetIfUnset()
      modifies this
      ensures defaults == if CurrentPresetKey in old(defaults) then old(defaults) else WithCurrent(old(defaults), Default())
      ensures pool == old(pool)
    {
      if CurrentPresetKey !in defaults {
        StoreCurrentPreset(Default());
      }
    }

    /** `loadCurrentPreset()`. */
    method LoadCurrentPreset(parse: Parser) returns (p: PresetValue)
      requires LoadedCurrent(defaults, parse).Some?
      ensures LoadedCurrent(defaults, parse) == Some(p)
    {
      var data := defaults[CurrentPresetKey];
      p := Decode(parse, data.record).value;
    }

    /** `storeCurrentPreset(instance:)`: unconditional overwrite. */
    method StoreCurrentPreset(instance: PresetValue)
      modifies this
      ensures defaults == WithCurrent(old(defaults), instance)
      ensures pool == old(pool)
    {
      defaults := defaults[CurrentPresetKey := PresetArchive(Encode(instance))];
    }

    /** `createUserPresetsDictionaryIfUnset()`: seeds the empty dictionary only when the key is absent. */
    method CreateUserPresetsDictionaryIfUnset()
      modifies this
      ensures defaults == if UserPresetsKey in old(defaults) then old(defaults) else WithDictionary(old(defaults), map[])
      ensures pool == old(pool)
    {
      if UserPresetsKey !in defaults {
        StoreUserPresets(map[]);
      }
    }

    /** `loadUserPresets()`. */
    method LoadUserPresets(parse: Parser) returns (d: map<string, PresetValue>)
      requires LoadedDictionary(defaults, parse).Some?
      ensures LoadedDictionary(defaults, parse) == Some(d)
    {
      var data := defaults[UserPresetsKey];
      d := DecodeAll(parse, data.records).value;
    }

    /** `storeUserPresets(dictionary:)`: replaces the whole record, no merging. */
    method StoreUserPresets(dictionary: map<string, PresetValue>)
      modifies this
      ensures defaults == WithDictionary(old(defaults), dictionary)
      ensures pool == old(pool)
    {
      defaults := defaults[UserPresetsKey := DictionaryArchive(EncodeAll(dictionary))];
    }

    /** `storeLocalFile(fromUrl:)`. `contents` is what `Data(contentsOf: src)` reads after the
        old copy is removed; `poolCopy` says that `src` is that copy (`IsPoolCopy`), whose read
        then fails, so the pool loses it. */
    method StoreLocalFile(src: Url, contents: Result<Bytes>, ghost poolCopy: bool) returns (st: Status)
      requires poolCopy ==> contents.Failure?
      modifies this
      ensures pool == StagedPool(old(pool), LastPathComponent(src.str), contents)
      ensures st.Ok? <==> contents.Success?
      ensures poolCopy ==> st.Err? && LastPathComponent(src.str) !in pool
      ensures defaults == old(defaults)
    {
      var dst := LastPathComponent(src.str);
      // the `fileExists` guard: taking out a name the pool lacks changes nothing
      pool := pool - {dst};
      if contents.Failure? {
        return Err(contents.description);
      }
      pool := pool[dst := contents.value];
      st := Ok;
    }
  }
}
