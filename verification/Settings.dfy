/** The settings record: overlaying a JSON object onto it and saving it as one. Strings are byte strings. */
module Settings {
  import opened DeviceNames
  import opened Options

  const HWDEC_DEFAULT := "no"

  type I32 = x: int | -0x8000_0000 <= x < 0x8000_0000

  datatype WindowDecorations = Csd | Server | ServerThemed
  {
    function AsStr(): string {
      match this
      case Csd => "csd"
      case Server => "server"
      case ServerThemed => "serverThemed"
    }
  }

  function ParseDecorations(s: string): Option<WindowDecorations> {
    if s == "csd" then Some(Csd)
    else if s == "server" then Some(Server)
    else if s == "serverThemed" then Some(ServerThemed)
    else None
  }

  lemma DecorationsRoundTrip(s: string, d: WindowDecorations)
    ensures ParseDecorations(s) == Some(d) <==> s == d.AsStr()
  {
  }

  // ---- JSON ----

  /** A value under a key; nulls, arrays and objects are not told apart. */
  datatype Value = Bool(b: bool) | Int(n: int) | Float(x: real) | Str(s: string) | OtherValue

  datatype Document = Object(entries: map<Key, Value>) | NotObject

  /** The keys of the settings file; any other key is `Other`. */
  datatype Key =
    | ServerUrl | Hwdec | AudioPassthrough | AudioChannels | LogLevel | DeviceName
    | WindowWidth | WindowHeight | WindowLogicalWidth | WindowLogicalHeight | WindowScale | WindowX | WindowY
    | WindowMaximized | AudioExclusive | DisableGpuCompositing | TransparentTitlebar | ForceTranscoding
    | Decorations | HideScrollbar | RtxVsr | RtxHdr
    | Other(name: string)

  const BASE_KEYS: set<Key> := {ServerUrl, LogLevel, DeviceName, ForceTranscoding, DisableGpuCompositing}
  const SIZE_KEYS: set<Key> := {WindowWidth, WindowHeight, WindowLogicalWidth, WindowLogicalHeight}
  const PLACE_KEYS: set<Key> := {WindowScale, WindowX, WindowY, WindowMaximized}
  const AUDIO_KEYS: set<Key> := {AudioPassthrough, AudioExclusive, AudioChannels}
  const VIDEO_KEYS: set<Key> := {Hwdec, RtxVsr, RtxHdr}
  const LOOK_KEYS: set<Key> := {TransparentTitlebar, Decorations, HideScrollbar}

  predicate HasStr(o: map<Key, Value>, key: Key) {
    key in o && o[key].Str?
  }

  predicate HasI64(o: map<Key, Value>, key: Key) {
    key in o && o[key].Int? && -0x8000_0000_0000_0000 <= o[key].n < 0x8000_0000_0000_0000
  }

  predicate HasF64(o: map<Key, Value>, key: Key) {
    key in o && (o[key].Int? || o[key].Float?)
  }

  function F64At(o: map<Key, Value>, key: Key): real
    requires HasF64(o, key)
  {
    if o[key].Int? then o[key].n as real else o[key].x
  }

  predicate HasBool(o: map<Key, Value>, key: Key) {
    key in o && o[key].Bool?
  }

  /** The cast to a 32-bit integer, which wraps around. */
  function WrapI32(n: int): (r: I32)
    ensures (n - r) % 0x1_0000_0000 == 0
  {
    (n + 0x8000_0000) % 0x1_0000_0000 - 0x8000_0000
  }

  // ---- The settings as a value ----

  datatype Geometry = Geometry(
    x: I32, y: I32, width: I32, height: I32, logicalWidth: I32, logicalHeight: I32, scale: real, maximized: bool)

  datatype Data = Data(
    serverUrl: string,
    hwdec: string,
    audioPassthrough: string,
    audioChannels: string,
    logLevel: string,
    deviceName: string,
    window: Geometry,
    audioExclusive: bool,
    disableGpuCompositing: bool,
    transparentTitlebar: bool,
    forceTranscoding: bool,
    windowDecorations: Option<WindowDecorations>,
    hideScrollbar: bool,
    rtxVsr: bool,
    rtxHdr: bool)

  const DEFAULT: Data := Data(
    "", "", "", "", "", "", Geometry(-1, -1, 0, 0, 0, 0, 0.0, false), false, false, true, false, None, true, false, false)

  function StrOr(o: map<Key, Value>, key: Key, kept: string): string {
    if HasStr(o, key) then o[key].s else kept
  }

  function I32Or(o: map<Key, Value>, key: Key, kept: I32): I32 {
    if HasI64(o, key) then WrapI32(o[key].n) else kept
  }

  function F64Or(o: map<Key, Value>, key: Key, kept: real): real {
    if HasF64(o, key) then F64At(o, key) else kept
  }

  function BoolOr(o: map<Key, Value>, key: Key, kept: bool): bool {
    if HasBool(o, key) then o[key].b else kept
  }

  function NameOr(o: map<Key, Value>, kept: string): string {
    if HasStr(o, DeviceName) then Clamped(o[DeviceName].s) else kept
  }

  function DecorationsOr(o: map<Key, Value>, kept: Option<WindowDecorations>): Option<WindowDecorations> {
    if HasStr(o, Decorations) && ParseDecorations(o[Decorations].s).Some? then ParseDecorations(o[Decorations].s) else kept
  }

  function OverlaidWindow(g: Geometry, o: map<Key, Value>): Geometry {
    Geometry(
      I32Or(o, WindowX, g.x), I32Or(o, WindowY, g.y),
      I32Or(o, WindowWidth, g.width), I32Or(o, WindowHeight, g.height),
      I32Or(o, WindowLogicalWidth, g.logicalWidth), I32Or(o, WindowLogicalHeight, g.logicalHeight),
      F64Or(o, WindowScale, g.scale), BoolOr(o, WindowMaximized, g.maximized))
  }

  /** Each key read where it is present and of the right kind. */
  function Overlaid(d: Data, o: map<Key, Value>): Data {
    Data(
      StrOr(o, ServerUrl, d.serverUrl), StrOr(o, Hwdec, d.hwdec),
      StrOr(o, AudioPassthrough, d.audioPassthrough), StrOr(o, AudioChannels, d.audioChannels),
      StrOr(o, LogLevel, d.logLevel), NameOr(o, d.deviceName),
      OverlaidWindow(d.window, o),
      BoolOr(o, AudioExclusive, d.audioExclusive), BoolOr(o, DisableGpuCompositing, d.disableGpuCompositing),
      BoolOr(o, TransparentTitlebar, d.transparentTitlebar), BoolOr(o, ForceTranscoding, d.forceTranscoding),
      DecorationsOr(o, d.windowDecorations),
      BoolOr(o, HideScrollbar, d.hideScrollbar), BoolOr(o, RtxVsr, d.rtxVsr), BoolOr(o, RtxHdr, d.rtxHdr))
  }

  function When(condition: bool, v: Value): Option<Value> {
    if condition then Some(v) else None
  }

  /** What is saved under a key, if anything. */
  function Stored(d: Data, key: Key): Option<Value> {
    var w := d.window;
    match key
    case ServerUrl => Some(Str(d.serverUrl))
    case Hwdec => When(d.hwdec != "" && d.hwdec != HWDEC_DEFAULT, Str(d.hwdec))
    case AudioPassthrough => When(d.audioPassthrough != "", Str(d.audioPassthrough))
    case AudioChannels => When(d.audioChannels != "", Str(d.audioChannels))
    case LogLevel => When(d.logLevel != "", Str(d.logLevel))
    case DeviceName => When(d.deviceName != "", Str(d.deviceName))
    case WindowWidth => When(w.width > 0 && w.height > 0, Int(w.width))
    case WindowHeight => When(w.width > 0 && w.height > 0, Int(w.height))
    case WindowLogicalWidth => When(w.logicalWidth > 0 && w.logicalHeight > 0, Int(w.logicalWidth))
    case WindowLogicalHeight => When(w.logicalWidth > 0 && w.logicalHeight > 0, Int(w.logicalHeight))
    case WindowScale => When(w.scale > 0.0, Float(w.scale))
    case WindowX => When(w.x >= 0 && w.y >= 0, Int(w.x))
    case WindowY => When(w.x >= 0 && w.y >= 0, Int(w.y))
    case WindowMaximized => Some(Bool(w.maximized))
    case AudioExclusive => When(d.audioExclusive, Bool(true))
    case DisableGpuCompositing => When(d.disableGpuCompositing, Bool(true))
    case TransparentTitlebar => When(!d.transparentTitlebar, Bool(false))
    case ForceTranscoding => When(d.forceTranscoding, Bool(true))
    case Decorations => if d.windowDecorations.Some? then Some(Str(d.windowDecorations.value.AsStr())) else None
    case HideScrollbar => When(!d.hideScrollbar, Bool(false))
    case RtxVsr => When(d.rtxVsr, Bool(true))
    case RtxHdr => When(d.rtxHdr, Bool(true))
    case Other(_) => None
  }

  /** What is saved under the keys of a group. */
  function SavedPart(d: Data, keys: set<Key>): map<Key, Value> {
    map k | k in keys && Stored(d, k).Some? :: Stored(d, k).value
  }

  function Saved(d: Data): map<Key, Value> {
    SavedPart(d, BASE_KEYS) + SavedPart(d, SIZE_KEYS) + SavedPart(d, PLACE_KEYS) + SavedPart(d, AUDIO_KEYS) +
      SavedPart(d, VIDEO_KEYS) + SavedPart(d, LOOK_KEYS)
  }

  predicate Holds(o: map<Key, Value>, key: Key, v: Option<Value>) {
    match v
    case None => key !in o
    case Some(value) => key in o && o[key] == value
  }

  /** Each key of `o` holds what is stored under it, and there is no other key. */
  ghost predicate IsSaved(o: map<Key, Value>, d: Data) {
    forall k :: Holds(o, k, Stored(d, k))
  }

  lemma SavedAt(d: Data, key: Key)
    ensures Holds(Saved(d), key, Stored(d, key))
  {
    KeysAreGrouped(key);
    PartsAt(d, BASE_KEYS, SIZE_KEYS, PLACE_KEYS, AUDIO_KEYS, VIDEO_KEYS, LOOK_KEYS, key);
  }

  lemma PartsAt(d: Data, a: set<Key>, b: set<Key>, c: set<Key>, e: set<Key>, f: set<Key>, g: set<Key>, key: Key)
    requires key.Other? || key in a || key in b || key in c || key in e || key in f || key in g
    ensures Holds(SavedPart(d, a) + SavedPart(d, b) + SavedPart(d, c) + SavedPart(d, e) + SavedPart(d, f) + SavedPart(d, g),
                  key, Stored(d, key))
  {
  }

  lemma KeysAreGrouped(key: Key)
    ensures key.Other? || key in BASE_KEYS || key in SIZE_KEYS || key in PLACE_KEYS || key in AUDIO_KEYS
      || key in VIDEO_KEYS || key in LOOK_KEYS
  {
  }

  // ---- The settings in place ----

  class Store {
    var data: Data

    constructor ()
      ensures data == DEFAULT
    {
      data := DEFAULT;
    }

    method OverlayJson(v: Document)
      modifies this
      ensures data == if v.Object? then Overlaid(old(data), v.entries) else old(data)
    {
      if v.Object? {
        OverlayStrings(v.entries);
        OverlayWindow(v.entries);
        OverlayFlags(v.entries);
        OverlayLook(v.entries);
      }
    }

    method OverlayStrings(o: map<Key, Value>)
      modifies this
      ensures data == var d := old(data);
        d.(serverUrl := StrOr(o, ServerUrl, d.serverUrl), hwdec := StrOr(o, Hwdec, d.hwdec),
           audioPassthrough := StrOr(o, AudioPassthrough, d.audioPassthrough),
           audioChannels := StrOr(o, AudioChannels, d.audioChannels), logLevel := StrOr(o, LogLevel, d.logLevel),
           deviceName := NameOr(o, d.deviceName))
    {
      data := data.(serverUrl := StrOr(o, ServerUrl, data.serverUrl));
      data := data.(hwdec := StrOr(o, Hwdec, data.hwdec));
      data := data.(audioPassthrough := StrOr(o, AudioPassthrough, data.audioPassthrough));
      data := data.(audioChannels := StrOr(o, AudioChannels, data.audioChannels));
      data := data.(logLevel := StrOr(o, LogLevel, data.logLevel));
      if HasStr(o, DeviceName) {
        var s := o[DeviceName].s;
        if |s| > DEVICE_NAME_MAX {
          s := s[..DEVICE_NAME_MAX];
        }
        data := data.(deviceName := s);
      }
    }

    method OverlayWindow(o: map<Key, Value>)
      modifies this
      ensures data == old(data).(window := OverlaidWindow(old(data).window, o))
    {
      var w := data.window;
      w := w.(width := I32Or(o, WindowWidth, w.width));
      w := w.(height := I32Or(o, WindowHeight, w.height));
      w := w.(logicalWidth := I32Or(o, WindowLogicalWidth, w.logicalWidth));
      w := w.(logicalHeight := I32Or(o, WindowLogicalHeight, w.logicalHeight));
      w := w.(scale := F64Or(o, WindowScale, w.scale));
      w := w.(x := I32Or(o, WindowX, w.x));
      w := w.(y := I32Or(o, WindowY, w.y));
      w := w.(maximized := BoolOr(o, WindowMaximized, w.maximized));
      data := data.(window := w);
    }

    method OverlayFlags(o: map<Key, Value>)
      modifies this
      ensures data == var d := old(data);
        d.(audioExclusive := BoolOr(o, AudioExclusive, d.audioExclusive),
           disableGpuCompositing := BoolOr(o, DisableGpuCompositing, d.disableGpuCompositing),
           forceTranscoding := BoolOr(o, ForceTranscoding, d.forceTranscoding),
           rtxVsr := BoolOr(o, RtxVsr, d.rtxVsr), rtxHdr := BoolOr(o, RtxHdr, d.rtxHdr))
    {
      data := data.(audioExclusive := BoolOr(o, AudioExclusive, data.audioExclusive));
      data := data.(disableGpuCompositing := BoolOr(o, DisableGpuCompositing, data.disableGpuCompositing));
      data := data.(forceTranscoding := BoolOr(o, ForceTranscoding, data.forceTranscoding));
      data := data.(rtxVsr := BoolOr(o, RtxVsr, data.rtxVsr));
      data := data.(rtxHdr := BoolOr(o, RtxHdr, data.rtxHdr));
    }

    method OverlayLook(o: map<Key, Value>)
      modifies this
      ensures data == var d := old(data);
        d.(transparentTitlebar := BoolOr(o, TransparentTitlebar, d.transparentTitlebar),
           windowDecorations := DecorationsOr(o, d.windowDecorations),
           hideScrollbar := BoolOr(o, HideScrollbar, d.hideScrollbar))
    {
      data := data.(transparentTitlebar := BoolOr(o, TransparentTitlebar, data.transparentTitlebar));
      data := data.(windowDecorations := DecorationsOr(o, data.windowDecorations));
      data := data.(hideScrollbar := BoolOr(o, HideScrollbar, data.hideScrollbar));
    }

    method SetDeviceName(raw: string, platformDefault: string)
      modifies this
      ensures data == old(data).(deviceName := Normalized(raw, platformDefault))
    {
      var cleaned := NormalizeDeviceName(raw, platformDefault);
      data := data.(deviceName := cleaned);
    }

    method ToJson() returns (v: Document)
      ensures v == Object(Saved(data))
    {
      var o := BaseToJson();
      o := SizesToJson(o);
      o := PlaceToJson(o);
      o := AudioToJson(o);
      o := VideoToJson(o);
      o := LookToJson(o);
      v := Object(o);
    }

    method BaseToJson() returns (o: map<Key, Value>)
      ensures o == SavedPart(data, BASE_KEYS)
    {
      o := map[ServerUrl := Str(data.serverUrl)];
      if data.disableGpuCompositing { o := o[DisableGpuCompositing := Bool(true)]; }
      if data.logLevel != "" { o := o[LogLevel := Str(data.logLevel)]; }
      if data.forceTranscoding { o := o[ForceTranscoding := Bool(true)]; }
      if data.deviceName != "" { o := o[DeviceName := Str(data.deviceName)]; }
    }

    method SizesToJson(before: map<Key, Value>) returns (o: map<Key, Value>)
      ensures o == before + SavedPart(data, SIZE_KEYS)
    {
      o := before;
      if data.window.width > 0 && data.window.height > 0 {
        o := o[WindowWidth := Int(data.window.width)];
        o := o[WindowHeight := Int(data.window.height)];
      }
      if data.window.logicalWidth > 0 && data.window.logicalHeight > 0 {
        o := o[WindowLogicalWidth := Int(data.window.logicalWidth)];
        o := o[WindowLogicalHeight := Int(data.window.logicalHeight)];
      }
    }

    method PlaceToJson(before: map<Key, Value>) returns (o: map<Key, Value>)
      ensures o == before + SavedPart(data, PLACE_KEYS)
    {
      o := before;
      if data.window.scale > 0.0 { o := o[WindowScale := Float(data.window.scale)]; }
      if data.window.x >= 0 && data.window.y >= 0 {
        o := o[WindowX := Int(data.window.x)];
        o := o[WindowY := Int(data.window.y)];
      }
      o := o[WindowMaximized := Bool(data.window.maximized)];
    }

    method AudioToJson(before: map<Key, Value>) returns (o: map<Key, Value>)
      ensures o == before + SavedPart(data, AUDIO_KEYS)
    {
      o := before;
      if data.audioPassthrough != "" { o := o[AudioPassthrough := Str(data.audioPassthrough)]; }
      if data.audioExclusive { o := o[AudioExclusive := Bool(true)]; }
      if data.audioChannels != "" { o := o[AudioChannels := Str(data.audioChannels)]; }
    }

    method VideoToJson(before: map<Key, Value>) returns (o: map<Key, Value>)
      ensures o == before + SavedPart(data, VIDEO_KEYS)
    {
      o := before;
      if data.hwdec != "" && data.hwdec != HWDEC_DEFAULT { o := o[Hwdec := Str(data.hwdec)]; }
      if data.rtxVsr { o := o[RtxVsr := Bool(true)]; }
      if data.rtxHdr { o := o[RtxHdr := Bool(true)]; }
    }

    method LookToJson(before: map<Key, Value>) returns (o: map<Key, Value>)
      ensures o == before + SavedPart(data, LOOK_KEYS)
    {
      o := before;
      if !data.transparentTitlebar { o := o[TransparentTitlebar := Bool(false)]; }
      if data.windowDecorations.Some? { o := o[Decorations := Str(data.windowDecorations.value.AsStr())]; }
      if !data.hideScrollbar { o := o[HideScrollbar := Bool(false)]; }
    }
  }

  // ---- Saving and loading ----

  function Loaded(o: map<Key, Value>): Data {
    Overlaid(DEFAULT, o)
  }

  function CanonWindow(g: Geometry): Geometry {
    var sized, logical, placed := g.width > 0 && g.height > 0, g.logicalWidth > 0 && g.logicalHeight > 0, g.x >= 0 && g.y >= 0;
    Geometry(
      if placed then g.x else -1, if placed then g.y else -1,
      if sized then g.width else 0, if sized then g.height else 0,
      if logical then g.logicalWidth else 0, if logical then g.logicalHeight else 0,
      if g.scale > 0.0 then g.scale else 0.0, g.maximized)
  }

  /** What survives a restart: half-unset pairs and the default decoder are forgotten, the name is cut. */
  function Canon(d: Data): Data {
    d.(hwdec := if d.hwdec == HWDEC_DEFAULT then "" else d.hwdec,
       deviceName := Clamped(d.deviceName),
       window := CanonWindow(d.window))
  }

  lemma WrapKeeps(n: I32)
    ensures WrapI32(n) == n
  {
  }

  lemma StringsReload(d: Data, o: map<Key, Value>)
    requires IsSaved(o, d)
    ensures var r, c := Loaded(o), Canon(d);
      && r.serverUrl == c.serverUrl && r.hwdec == c.hwdec && r.audioPassthrough == c.audioPassthrough
      && r.audioChannels == c.audioChannels && r.logLevel == c.logLevel && r.deviceName == c.deviceName
  {
    assert Holds(o, ServerUrl, Stored(d, ServerUrl));
    assert Holds(o, Hwdec, Stored(d, Hwdec));
    assert Holds(o, AudioPassthrough, Stored(d, AudioPassthrough));
    assert Holds(o, AudioChannels, Stored(d, AudioChannels));
    assert Holds(o, LogLevel, Stored(d, LogLevel));
    assert Holds(o, DeviceName, Stored(d, DeviceName));
  }

  lemma WindowReloads(d: Data, o: map<Key, Value>)
    requires IsSaved(o, d)
    ensures Loaded(o).window == CanonWindow(d.window)
  {
    assert Holds(o, WindowWidth, Stored(d, WindowWidth));
    assert Holds(o, WindowHeight, Stored(d, WindowHeight));
    assert Holds(o, WindowLogicalWidth, Stored(d, WindowLogicalWidth));
    assert Holds(o, WindowLogicalHeight, Stored(d, WindowLogicalHeight));
    assert Holds(o, WindowScale, Stored(d, WindowScale));
    assert Holds(o, WindowX, Stored(d, WindowX));
    assert Holds(o, WindowY, Stored(d, WindowY));
    assert Holds(o, WindowMaximized, Stored(d, WindowMaximized));
    WrapKeeps(d.window.width);
    WrapKeeps(d.window.height);
    WrapKeeps(d.window.logicalWidth);
    WrapKeeps(d.window.logicalHeight);
    WrapKeeps(d.window.x);
    WrapKeeps(d.window.y);
  }

  lemma FlagsReload(d: Data, o: map<Key, Value>)
    requires IsSaved(o, d)
    ensures var r, c := Loaded(o), Canon(d);
      && r.audioExclusive == c.audioExclusive && r.disableGpuCompositing == c.disableGpuCompositing
      && r.forceTranscoding == c.forceTranscoding && r.rtxVsr == c.rtxVsr && r.rtxHdr == c.rtxHdr
  {
    assert Holds(o, AudioExclusive, Stored(d, AudioExclusive));
    assert Holds(o, DisableGpuCompositing, Stored(d, DisableGpuCompositing));
    assert Holds(o, ForceTranscoding, Stored(d, ForceTranscoding));
    assert Holds(o, RtxVsr, Stored(d, RtxVsr));
    assert Holds(o, RtxHdr, Stored(d, RtxHdr));
  }

  lemma LookReloads(d: Data, o: map<Key, Value>)
    requires IsSaved(o, d)
    ensures var r, c := Loaded(o), Canon(d);
      && r.transparentTitlebar == c.transparentTitlebar && r.windowDecorations == c.windowDecorations
      && r.hideScrollbar == c.hideScrollbar
  {
    assert Holds(o, TransparentTitlebar, Stored(d, TransparentTitlebar));
    assert Holds(o, Decorations, Stored(d, Decorations));
    assert Holds(o, HideScrollbar, Stored(d, HideScrollbar));
  }

  lemma SavedIs(d: Data)
    ensures IsSaved(Saved(d), d)
  {
    forall k ensures Holds(Saved(d), k, Stored(d, k)) {
      SavedAt(d, k);
    }
  }

  lemma OneSaved(o: map<Key, Value>, p: map<Key, Value>, d: Data)
    requires IsSaved(o, d) && IsSaved(p, d)
    ensures o == p
  {
    forall k ensures k in o <==> k in p {
      assert Holds(o, k, Stored(d, k)) && Holds(p, k, Stored(d, k));
    }
    forall k | k in o ensures o[k] == p[k] {
      assert Holds(o, k, Stored(d, k)) && Holds(p, k, Stored(d, k));
    }
  }

  lemma Reloads(d: Data, o: map<Key, Value>)
    requires IsSaved(o, d)
    ensures Loaded(o) == Canon(d)
  {
    StringsReload(d, o);
    WindowReloads(d, o);
    FlagsReload(d, o);
    LookReloads(d, o);
  }

  /** Loading what was saved gives the canonical form. */
  lemma LoadOfSave(d: Data)
    ensures Loaded(Saved(d)) == Canon(d)
  {
    SavedIs(d);
    Reloads(d, Saved(d));
  }

  lemma StoredOfCanon(d: Data, key: Key)
    ensures Stored(Canon(d), key) == Stored(d, key) || (key == DeviceName && |d.deviceName| > DEVICE_NAME_MAX)
  {
  }

  lemma CanonIsSaved(d: Data, o: map<Key, Value>, p: map<Key, Value>)
    requires IsSaved(o, d) && IsSaved(p, Canon(d))
    ensures o == p <==> |d.deviceName| <= DEVICE_NAME_MAX
  {
    if |d.deviceName| <= DEVICE_NAME_MAX {
      forall k ensures Holds(p, k, Stored(d, k)) {
        StoredOfCanon(d, k);
        assert Holds(p, k, Stored(Canon(d), k));
      }
      OneSaved(o, p, d);
    }
    assert Holds(o, DeviceName, Stored(d, DeviceName));
    assert Holds(p, DeviceName, Stored(Canon(d), DeviceName));
  }

  /** The canonical form saves as the original does, exactly where no name is cut. */
  lemma SaveOfCanonIff(d: Data)
    ensures Saved(Canon(d)) == Saved(d) <==> |d.deviceName| <= DEVICE_NAME_MAX
  {
    SavedIs(d);
    SavedIs(Canon(d));
    CanonIsSaved(d, Saved(d), Saved(Canon(d)));
  }

  lemma CanonOfCanon(d: Data)
    ensures Canon(Canon(d)) == Canon(d)
  {
  }

  /** Save, load, save: the second file equals the first exactly where no name is cut, and loading it gives what
      loading the first gave. */
  lemma SaveLoadSave(d: Data)
    ensures Saved(Loaded(Saved(d))) == Saved(d) <==> |d.deviceName| <= DEVICE_NAME_MAX
    ensures Loaded(Saved(Loaded(Saved(d)))) == Loaded(Saved(d))
  {
    LoadOfSave(d);
    SaveOfCanonIff(d);
    LoadOfSave(Canon(d));
    CanonOfCanon(d);
  }

  lemma LoadedNameFits(o: map<Key, Value>)
    ensures |Loaded(o).deviceName| <= DEVICE_NAME_MAX
  {
  }

  /** Whatever the file held, saving what was loaded from it is stable. */
  lemma LoadedFilesAreStable(o: map<Key, Value>)
    ensures Saved(Loaded(Saved(Loaded(o)))) == Saved(Loaded(o))
  {
    LoadedNameFits(o);
    SaveLoadSave(Loaded(o));
  }

  /** A device name once set survives the restart unchanged, and the next file equals this one. */
  lemma SetNameSurvives(d: Data, raw: string, platformDefault: string)
    ensures var e := d.(deviceName := Normalized(raw, platformDefault));
      Loaded(Saved(e)).deviceName == e.deviceName && Saved(Loaded(Saved(e))) == Saved(e)
  {
    var e := d.(deviceName := Normalized(raw, platformDefault));
    NormalizedFits(raw, platformDefault);
    LoadOfSave(e);
    SaveLoadSave(e);
  }

  /** Two settings are saved alike exactly if they have one canonical form: a save forgets nothing else. */
  lemma SavedAlikeIff(a: Data, b: Data)
    requires |a.deviceName| <= DEVICE_NAME_MAX && |b.deviceName| <= DEVICE_NAME_MAX
    ensures Saved(a) == Saved(b) <==> Canon(a) == Canon(b)
  {
    LoadOfSave(a);
    LoadOfSave(b);
    SaveOfCanonIff(a);
    SaveOfCanonIff(b);
  }

  // ---- What a file's keys do, one by one ----

  ghost predicate StrRead(o: map<Key, Value>, key: Key, was: string, now: string) {
    now == if key in o && o[key].Str? then o[key].s else was
  }

  /** A number of 64 bits is kept up to multiples of 2^32, any other is passed over. */
  ghost predicate I32Read(o: map<Key, Value>, key: Key, was: I32, now: I32) {
    if key in o && o[key].Int? && -0x8000_0000_0000_0000 <= o[key].n < 0x8000_0000_0000_0000
    then exists wraps :: o[key].n == now + wraps * 0x1_0000_0000
    else now == was
  }

  ghost predicate F64Read(o: map<Key, Value>, key: Key, was: real, now: real) {
    && (key in o && o[key].Int? ==> now == o[key].n as real)
    && (key in o && o[key].Float? ==> now == o[key].x)
    && (key !in o || !(o[key].Int? || o[key].Float?) ==> now == was)
  }

  ghost predicate BoolRead(o: map<Key, Value>, key: Key, was: bool, now: bool) {
    if key in o && o[key].Bool? then now == o[key].b else now == was
  }

  /** Of a name, the first 64 bytes are kept. */
  ghost predicate NameRead(o: map<Key, Value>, was: string, now: string) {
    if DeviceName in o && o[DeviceName].Str?
    then var s := o[DeviceName].s; now <= s && (if |s| <= 64 then |now| == |s| else |now| == 64)
    else now == was
  }

  /** The literal of a mode sets the mode, any other string is passed over. */
  ghost predicate ModeRead(o: map<Key, Value>, was: Option<WindowDecorations>, now: Option<WindowDecorations>) {
    if exists d: WindowDecorations :: Decorations in o && o[Decorations] == Str(d.AsStr())
    then now.Some? && o[Decorations] == Str(now.value.AsStr())
    else now == was
  }

  ghost predicate WindowRead(o: map<Key, Value>, was: Geometry, now: Geometry) {
    && I32Read(o, WindowX, was.x, now.x) && I32Read(o, WindowY, was.y, now.y)
    && I32Read(o, WindowWidth, was.width, now.width) && I32Read(o, WindowHeight, was.height, now.height)
    && I32Read(o, WindowLogicalWidth, was.logicalWidth, now.logicalWidth)
    && I32Read(o, WindowLogicalHeight, was.logicalHeight, now.logicalHeight)
    && F64Read(o, WindowScale, was.scale, now.scale) && BoolRead(o, WindowMaximized, was.maximized, now.maximized)
  }

  ghost predicate StringsRead(o: map<Key, Value>, was: Data, now: Data) {
    && StrRead(o, ServerUrl, was.serverUrl, now.serverUrl) && StrRead(o, Hwdec, was.hwdec, now.hwdec)
    && StrRead(o, AudioPassthrough, was.audioPassthrough, now.audioPassthrough)
    && StrRead(o, AudioChannels, was.audioChannels, now.audioChannels)
    && StrRead(o, LogLevel, was.logLevel, now.logLevel) && NameRead(o, was.deviceName, now.deviceName)
  }

  ghost predicate FlagsRead(o: map<Key, Value>, was: Data, now: Data) {
    && BoolRead(o, AudioExclusive, was.audioExclusive, now.audioExclusive)
    && BoolRead(o, DisableGpuCompositing, was.disableGpuCompositing, now.disableGpuCompositing)
    && BoolRead(o, TransparentTitlebar, was.transparentTitlebar, now.transparentTitlebar)
    && BoolRead(o, ForceTranscoding, was.forceTranscoding, now.forceTranscoding)
    && BoolRead(o, HideScrollbar, was.hideScrollbar, now.hideScrollbar)
    && BoolRead(o, RtxVsr, was.rtxVsr, now.rtxVsr) && BoolRead(o, RtxHdr, was.rtxHdr, now.rtxHdr)
  }

  lemma I32ReadIff(o: map<Key, Value>, key: Key, was: I32, now: I32)
    ensures I32Read(o, key, was, now) <==> now == I32Or(o, key, was)
  {
    if HasI64(o, key) {
      var n := o[key].n;
      var r := WrapI32(n);
      assert n == r + ((n - r) / 0x1_0000_0000) * 0x1_0000_0000;
      if wraps :| n == now + wraps * 0x1_0000_0000 {
        OneResidue(r, now, (n - r) / 0x1_0000_0000, wraps);
      }
    }
  }

  lemma OneResidue(a: I32, b: I32, k: int, m: int)
    requires a + k * 0x1_0000_0000 == b + m * 0x1_0000_0000
    ensures a == b
  {
  }

  lemma NameReadIff(o: map<Key, Value>, was: string, now: string)
    ensures NameRead(o, was, now) <==> now == NameOr(o, was)
  {
  }

  lemma ModeReadIff(o: map<Key, Value>, was: Option<WindowDecorations>, now: Option<WindowDecorations>)
    ensures ModeRead(o, was, now) <==> now == DecorationsOr(o, was)
  {
    if HasStr(o, Decorations) {
      forall d: WindowDecorations
        ensures o[Decorations].s == d.AsStr() <==> ParseDecorations(o[Decorations].s) == Some(d)
      {
        DecorationsRoundTrip(o[Decorations].s, d);
      }
    }
  }

  lemma WindowReadIff(o: map<Key, Value>, was: Geometry, now: Geometry)
    ensures WindowRead(o, was, now) <==> now == OverlaidWindow(was, o)
  {
    I32ReadIff(o, WindowX, was.x, now.x);
    I32ReadIff(o, WindowY, was.y, now.y);
    I32ReadIff(o, WindowWidth, was.width, now.width);
    I32ReadIff(o, WindowHeight, was.height, now.height);
    I32ReadIff(o, WindowLogicalWidth, was.logicalWidth, now.logicalWidth);
    I32ReadIff(o, WindowLogicalHeight, was.logicalHeight, now.logicalHeight);
  }

  predicate SameStrings(a: Data, b: Data) {
    && a.serverUrl == b.serverUrl && a.hwdec == b.hwdec && a.audioPassthrough == b.audioPassthrough
    && a.audioChannels == b.audioChannels && a.logLevel == b.logLevel && a.deviceName == b.deviceName
  }

  predicate SameFlags(a: Data, b: Data) {
    && a.audioExclusive == b.audioExclusive && a.disableGpuCompositing == b.disableGpuCompositing
    && a.transparentTitlebar == b.transparentTitlebar && a.forceTranscoding == b.forceTranscoding
    && a.hideScrollbar == b.hideScrollbar && a.rtxVsr == b.rtxVsr && a.rtxHdr == b.rtxHdr
  }

  lemma StringsReadIff(o: map<Key, Value>, was: Data, now: Data)
    ensures StringsRead(o, was, now) <==> SameStrings(now, Overlaid(was, o))
  {
    NameReadIff(o, was.deviceName, now.deviceName);
  }

  lemma BoolReadIff(o: map<Key, Value>, key: Key, was: bool, now: bool)
    ensures BoolRead(o, key, was, now) <==> now == BoolOr(o, key, was)
  {
  }

  lemma FlagsReadIff(o: map<Key, Value>, was: Data, now: Data)
    ensures FlagsRead(o, was, now) <==> SameFlags(now, Overlaid(was, o))
  {
    BoolReadIff(o, AudioExclusive, was.audioExclusive, now.audioExclusive);
    BoolReadIff(o, DisableGpuCompositing, was.disableGpuCompositing, now.disableGpuCompositing);
    BoolReadIff(o, TransparentTitlebar, was.transparentTitlebar, now.transparentTitlebar);
    BoolReadIff(o, ForceTranscoding, was.forceTranscoding, now.forceTranscoding);
    BoolReadIff(o, HideScrollbar, was.hideScrollbar, now.hideScrollbar);
    BoolReadIff(o, RtxVsr, was.rtxVsr, now.rtxVsr);
    BoolReadIff(o, RtxHdr, was.rtxHdr, now.rtxHdr);
  }

  lemma SameData(a: Data, b: Data)
    ensures a == b <==> SameStrings(a, b) && a.window == b.window && a.windowDecorations == b.windowDecorations && SameFlags(a, b)
  {
  }

  /** For every object, the result of an overlay is the one in which each key has set its own field to what it
      holds, where that is of the field's kind, and nothing else has changed. */
  lemma OverlaidIff(was: Data, o: map<Key, Value>, now: Data)
    ensures now == Overlaid(was, o) <==>
      && StringsRead(o, was, now) && WindowRead(o, was.window, now.window)
      && ModeRead(o, was.windowDecorations, now.windowDecorations) && FlagsRead(o, was, now)
  {
    ModeReadIff(o, was.windowDecorations, now.windowDecorations);
    StringsReadIff(o, was, now);
    WindowReadIff(o, was.window, now.window);
    FlagsReadIff(o, was, now);
    SameData(now, Overlaid(was, o));
  }

  // ---- Nothing superfluous is saved ----

  /** The field that the key stands for has its default value. */
  predicate Unset(d: Data, key: Key) {
    var w := d.window;
    match key
    case ServerUrl => d.serverUrl == ""
    case Hwdec => d.hwdec == ""
    case AudioPassthrough => d.audioPassthrough == ""
    case AudioChannels => d.audioChannels == ""
    case LogLevel => d.logLevel == ""
    case DeviceName => d.deviceName == ""
    case WindowWidth => w.width == 0
    case WindowHeight => w.height == 0
    case WindowLogicalWidth => w.logicalWidth == 0
    case WindowLogicalHeight => w.logicalHeight == 0
    case WindowScale => w.scale == 0.0
    case WindowX => w.x == -1
    case WindowY => w.y == -1
    case WindowMaximized => !w.maximized
    case AudioExclusive => !d.audioExclusive
    case DisableGpuCompositing => !d.disableGpuCompositing
    case TransparentTitlebar => d.transparentTitlebar
    case ForceTranscoding => !d.forceTranscoding
    case Decorations => d.windowDecorations.None?
    case HideScrollbar => d.hideScrollbar
    case RtxVsr => !d.rtxVsr
    case RtxHdr => !d.rtxHdr
    case Other(_) => true
  }

  lemma MissingIsUnset(o: map<Key, Value>, key: Key)
    requires key !in o
    ensures Unset(Loaded(o), key)
  {
  }

  lemma StoredIsSet(d: Data, key: Key)
    requires Stored(d, key).Some? && key != ServerUrl && key != WindowMaximized
    ensures !Unset(Canon(d), key)
  {
  }

  /** A key is saved only where leaving it out would load something else; but for the server's address and the
      maximized flag, which are always there. */
  lemma SavedIsMinimal(d: Data, key: Key)
    requires key in Saved(d) && key != ServerUrl && key != WindowMaximized
    ensures Loaded(Saved(d) - {key}) != Loaded(Saved(d))
  {
    LoadOfSave(d);
    SavedAt(d, key);
    StoredIsSet(d, key);
    MissingIsUnset(Saved(d) - {key}, key);
  }

  lemma AlwaysHeld(o: map<Key, Value>, d: Data)
    requires IsSaved(o, d)
    ensures ServerUrl in o && WindowMaximized in o
  {
    assert Holds(o, ServerUrl, Stored(d, ServerUrl));
    assert Holds(o, WindowMaximized, Stored(d, WindowMaximized));
  }

  lemma AlwaysSaved(d: Data)
    ensures ServerUrl in Saved(d) && WindowMaximized in Saved(d)
  {
    SavedIs(d);
    AlwaysHeld(Saved(d), d);
  }

  lemma HeldNumbersFit(o: map<Key, Value>, d: Data, key: Key)
    requires IsSaved(o, d) && key in o && o[key].Int?
    ensures -0x8000_0000 <= o[key].n < 0x8000_0000
  {
    assert Holds(o, key, Stored(d, key));
  }

  /** Every whole number saved fits 32 bits: with `OverlaidIff`, loading it gives it back. */
  lemma SavedNumbersFit(d: Data, key: Key)
    requires key in Saved(d) && Saved(d)[key].Int?
    ensures -0x8000_0000 <= Saved(d)[key].n < 0x8000_0000
  {
    SavedIs(d);
    HeldNumbersFit(Saved(d), d, key);
  }
}
