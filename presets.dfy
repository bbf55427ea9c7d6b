/** The `Preset` entity of SplitBrowser/Preset.swift: a named grid of URLs. */
module Presets {
  import opened Wrappers
  import opened Urls

  // The grid limits and form defaults held by `PresetManager`.
  const MaxRow := 5
  const MaxCol := 5
  /** Size of the backing array, independent of the current `row` and `col`. */
  const Capacity := MaxRow * MaxCol
  const DefaultUrlFormValue := "http://"
  const DefaultName := "名称未設定"
  /** What `URL(string: "http://")!` yields; the model fixes it as the non-file URL with that text. */
  const DefaultUrl := Url(false, DefaultUrlFormValue)

  /** Slot of the cell in column `x` and row `y`. */
  function BackingIndex(x: int, y: int): int
  {
    y * MaxCol + x
  }

  /** The fields of a `Preset` at one moment. */
  datatype PresetValue = PresetValue(name: string, row: int, col: int, urls: seq<Url>, temporary: bool)

  /** The slot of (x, y) exists, so `urls[y * maxCol + x]` does not trap. */
  predicate Addressable(p: PresetValue, x: int, y: int)
  {
    0 <= BackingIndex(x, y) < |p.urls|
  }

  /** The preset built by `Preset()`: temporary, every cell of the 5 x 5 grid has a slot, and
      every slot holds the default URL. */
  function Default(): (r: PresetValue)
    ensures r.temporary && r.name == DefaultName
    ensures forall x, y | 0 <= x < MaxCol && 0 <= y < MaxRow :: Addressable(r, x, y)
    ensures forall i | 0 <= i < |r.urls| :: r.urls[i] == DefaultUrl
  {
    PresetValue(DefaultName, 1, 1, seq(Capacity, _ => DefaultUrl), true)
  }

  /** The value after `setUrl(instance: u, x: x, y: y)`. */
  function WithUrl(p: PresetValue, x: int, y: int, u: Url): PresetValue
    requires Addressable(p, x, y)
  {
    p.(urls := p.urls[BackingIndex(x, y) := u])
  }

  lemma DefaultShape()
    ensures Default().name == DefaultName && Default().row == 1 && Default().col == 1
    ensures Default().temporary
    ensures |Default().urls| == Capacity == 25
    ensures forall i | 0 <= i < |Default().urls| :: Default().urls[i].str == "http://"
  {
  }

  /** Every cell of the 5 x 5 grid has its own slot of the backing array. */
  lemma {:induction false} GridCellsHaveDistinctSlots(x1: int, y1: int, x2: int, y2: int)
    requires 0 <= x1 < MaxCol && 0 <= y1 < MaxRow
    requires 0 <= x2 < MaxCol && 0 <= y2 < MaxRow
    ensures 0 <= BackingIndex(x1, y1) < Capacity
    ensures BackingIndex(x1, y1) == BackingIndex(x2, y2) <==> x1 == x2 && y1 == y2
  {
  }

  /** `setUrl` followed by `loadUrl` at the same cell returns the URL written; no other
      slot and no other field changes. */
  lemma SetThenLoad(p: PresetValue, x: int, y: int, u: Url)
    requires Addressable(p, x, y)
    ensures |WithUrl(p, x, y, u).urls| == |p.urls|
    ensures WithUrl(p, x, y, u).urls[BackingIndex(x, y)] == u
    ensures forall i | 0 <= i < |p.urls| && i != BackingIndex(x, y) :: WithUrl(p, x, y, u).urls[i] == p.urls[i]
    ensures WithUrl(p, x, y, u).(urls := p.urls) == p
  {
  }

  /* ---------------- Archiving (`encode(with:)` and `init?(coder:)`) ---------------- */

  /** What `encode(with:)` writes: every field, URLs as their `absoluteString`s. */
  datatype PresetRecord = PresetRecord(name: string, row: int, col: int, temporary: bool, urls: seq<string>)

  function Encode(p: PresetValue): (r: PresetRecord)
    ensures r.name == p.name && r.row == p.row && r.col == p.col && r.temporary == p.temporary
    ensures |r.urls| == |p.urls| && forall i | 0 <= i < |p.urls| :: r.urls[i] == p.urls[i].str
  {
    PresetRecord(p.name, p.row, p.col, p.temporary, seq(|p.urls|, i requires 0 <= i < |p.urls| => p.urls[i].str))
  }

  /** `stringUrls.map { URL(string: $0)! }`: `None` where the source's force unwrap traps. */
  function DecodeUrls(parse: Parser, ss: seq<string>): (r: Option<seq<Url>>)
    ensures r.Some? <==> forall i | 0 <= i < |ss| :: parse(ss[i]).Some?
    ensures r.Some? ==> |r.value| == |ss| && forall i | 0 <= i < |ss| :: parse(ss[i]) == Some(r.value[i])
  {
    if ss == [] then Some([])
    else
      match (parse(ss[0]), DecodeUrls(parse, ss[1..]))
      case (Some(u), Some(us)) =>
        assert forall i | 1 <= i < |ss| :: ss[i] == ss[1..][i - 1];
        Some([u] + us)
      case (None, _) => None
      case (_, None) =>
        assert forall i | 0 <= i < |ss| - 1 :: ss[1..][i] == ss[i + 1];
        None
  }

  /** `init?(coder:)`; `None` when decoding a URL would trap. */
  function Decode(parse: Parser, rec: PresetRecord): (r: Option<PresetValue>)
    ensures r.Some? <==> forall i | 0 <= i < |rec.urls| :: parse(rec.urls[i]).Some?
    ensures r.Some? ==> r.value.name == rec.name && r.value.row == rec.row && r.value.col == rec.col
                        && r.value.temporary == rec.temporary
    ensures r.Some? ==> |r.value.urls| == |rec.urls|
                        && forall i | 0 <= i < |rec.urls| :: parse(rec.urls[i]) == Some(r.value.urls[i])
  {
    match DecodeUrls(parse, rec.urls)
    case Some(us) => Some(PresetValue(rec.name, rec.row, rec.col, us, rec.temporary))
    case None => None
  }

  /** Every URL is reproduced by parsing its own `absoluteString`. */
  ghost predicate RoundTrips(parse: Parser, urls: seq<Url>)
  {
    forall i | 0 <= i < |urls| :: parse(urls[i].str) == Some(urls[i])
  }

  /** Decoding an archived preset gives back every field, including all slots of the
      backing array, not only the `row` x `col` window. */
  lemma ArchiveRoundTrip(parse: Parser, p: PresetValue)
    requires RoundTrips(parse, p.urls)
    ensures Decode(parse, Encode(p)) == Some(p)
  {
    var ss := Encode(p).urls;
    var us := DecodeUrls(parse, ss).value;
    assert us == p.urls by {
      forall i | 0 <= i < |ss| ensures us[i] == p.urls[i] {
        assert parse(ss[i]) == Some(us[i]);
      }
    }
  }

  /** `Preset()` survives archiving when `URL(string: "http://")` gives the default URL back. */
  lemma DefaultRoundTrip(parse: Parser)
    requires parse(DefaultUrlFormValue) == Some(DefaultUrl)
    ensures Decode(parse, Encode(Default())) == Some(Default())
  {
    DefaultShape();
    ArchiveRoundTrip(parse, Default());
  }

  /** Conversely, re-archiving a decoded record gives the record back when `URL(string:)`
      keeps the text it was given. */
  lemma RecordRoundTrip(parse: Parser, r: PresetRecord)
    requires Decode(parse, r).Some?
    requires forall i | 0 <= i < |r.urls| :: parse(r.urls[i]).Some? ==> parse(r.urls[i]).value.str == r.urls[i]
    ensures Encode(Decode(parse, r).value) == r
  {
    var us := DecodeUrls(parse, r.urls).value;
    assert Encode(Decode(parse, r).value).urls == r.urls by {
      forall i | 0 <= i < |r.urls| ensures us[i].str == r.urls[i] {
        assert parse(r.urls[i]) == Some(us[i]);
      }
    }
  }

  /* ---------------- The mutable object ---------------- */

  /** `class Preset`: fields updated in place, URLs in a fixed backing array. */
  class Preset {
    var name: string
    var row: int
    var col: int
    var urls: array<Url>
    var temporary: bool

    /** The current field values. */
    function Value(): PresetValue
      reads this, urls
    {
      PresetValue(name, row, col, urls[..], temporary)
    }

    /** `Preset()`: the default name, a 1 x 1 grid, 25 default URLs, temporary. */
    constructor ()
      ensures fresh(urls) && urls.Length == Capacity
      ensures Value() == Default()
    {
      name := DefaultName;
      row := 1;
      col := 1;
      temporary := true;
      urls := new Url[Capacity](_ => DefaultUrl);
      new;
      assert urls[..] == Default().urls;
    }

    /** A new object holding the given field values in an array of its own. */
    constructor Copy(v: PresetValue)
      ensures fresh(urls)
      ensures Value() == v
    {
      name := v.name;
      row := v.row;
      col := v.col;
      temporary := v.temporary;
      urls := new Url[|v.urls|](i requires 0 <= i < |v.urls| => v.urls[i]);
      new;
      assert urls[..] == v.urls;
    }

    /** `loadUrl(x:y:)`. */
    function LoadUrl(x: int, y: int): (u: Url)
      reads this, urls
      requires 0 <= BackingIndex(x, y) < urls.Length
      ensures u == Value().urls[BackingIndex(x, y)]
    {
      urls[BackingIndex(x, y)]
    }

    /** `setUrl(instance:x:y:)`: writes one slot of the backing array in place. */
    method SetUrl(instance: Url, x: int, y: int)
      requires 0 <= BackingIndex(x, y) < urls.Length
      modifies urls
      ensures Addressable(old(Value()), x, y)
      ensures Value() == WithUrl(old(Value()), x, y, instance)
    {
      urls[BackingIndex(x, y)] := instance;
    }

    /** `clone()`: an equal preset sharing no mutable state with this one. */
    method Clone() returns (c: Preset)
      ensures fresh(c) && fresh(c.urls)
      ensures c.Value() == Value()
    {
      c := new Preset.Copy(Value());
    }
  }

  /** A clone and its original are independent: a write to either leaves the other as it was. */
  method CloneIsIndependent(p: Preset, x: int, y: int, u: Url, w: Url) returns (c: Preset)
    requires 0 <= BackingIndex(x, y) < p.urls.Length
    modifies p.urls
    ensures fresh(c) && fresh(c.urls)
    ensures c.Value() == WithUrl(old(p.Value()), x, y, u)
    ensures p.Value() == WithUrl(old(p.Value()), x, y, w)
  {
    ghost var original := p.Value();
    c := p.Clone();
    c.SetUrl(u, x, y);
    assert p.Value() == original;
    p.SetUrl(w, x, y);
    assert c.Value() == WithUrl(original, x, y, u);
  }
}
