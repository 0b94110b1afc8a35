/**
 * The settings panel (src/components/ScreenshotSettings.tsx): the
 * configuration record it edits, the object-spread update every control
 * goes through, the five device presets and the rule that highlights one,
 * and the values its selects and sliders can hand to the update.
 *
 * Nothing here is mutated in place: every change builds a new record, so
 * the model is a set of functions on values.
 */
module ScreenshotSettings {
  import opened Wrappers
  import opened ImageFormat

  /** `ScreenshotConfig`. Numbers are integral. */
  datatype Config = Config(
    viewportWidth: int,
    viewportHeight: int,
    deviceScaleFactor: int,
    format: Format,
    imageQuality: int,
    fullPage: bool,
    blockAds: bool,
    blockCookieBanners: bool,
    delay: int,
    darkMode: bool,
    omitBackground: bool)

  /** `Partial<ScreenshotConfig>`: a field is `Some` when the update object has that key. */
  datatype ConfigUpdate = ConfigUpdate(
    viewportWidth: Option<int>,
    viewportHeight: Option<int>,
    deviceScaleFactor: Option<int>,
    format: Option<Format>,
    imageQuality: Option<int>,
    fullPage: Option<bool>,
    blockAds: Option<bool>,
    blockCookieBanners: Option<bool>,
    delay: Option<int>,
    darkMode: Option<bool>,
    omitBackground: Option<bool>)

  /** `{}`. */
  const NoUpdates := ConfigUpdate(None, None, None, None, None, None, None, None, None, None, None)

  // ------------------------------------------------ fields, generically

  /** The keys of `ScreenshotConfig`. */
  datatype Field =
    | ViewportWidth | ViewportHeight | DeviceScaleFactor | FormatKey | ImageQuality
    | FullPage | BlockAds | BlockCookieBanners | Delay | DarkMode | OmitBackground

  /** What a key can hold. */
  datatype Value = Number(n: int) | Flag(b: bool) | Kind(f: Format)

  /** `config[f]`. */
  function Get(c: Config, f: Field): Value {
    match f
    case ViewportWidth => Number(c.viewportWidth)
    case ViewportHeight => Number(c.viewportHeight)
    case DeviceScaleFactor => Number(c.deviceScaleFactor)
    case FormatKey => Kind(c.format)
    case ImageQuality => Number(c.imageQuality)
    case FullPage => Flag(c.fullPage)
    case BlockAds => Flag(c.blockAds)
    case BlockCookieBanners => Flag(c.blockCookieBanners)
    case Delay => Number(c.delay)
    case DarkMode => Flag(c.darkMode)
    case OmitBackground => Flag(c.omitBackground)
  }

  function NumberKey(o: Option<int>): Option<Value> {
    if o.Some? then Some(Number(o.value)) else None
  }

  function FlagKey(o: Option<bool>): Option<Value> {
    if o.Some? then Some(Flag(o.value)) else None
  }

  /** `updates[f]` when the key is present. */
  function Named(u: ConfigUpdate, f: Field): Option<Value> {
    match f
    case ViewportWidth => NumberKey(u.viewportWidth)
    case ViewportHeight => NumberKey(u.viewportHeight)
    case DeviceScaleFactor => NumberKey(u.deviceScaleFactor)
    case FormatKey => if u.format.Some? then Some(Kind(u.format.value)) else None
    case ImageQuality => NumberKey(u.imageQuality)
    case FullPage => FlagKey(u.fullPage)
    case BlockAds => FlagKey(u.blockAds)
    case BlockCookieBanners => FlagKey(u.blockCookieBanners)
    case Delay => NumberKey(u.delay)
    case DarkMode => FlagKey(u.darkMode)
    case OmitBackground => FlagKey(u.omitBackground)
  }

  /** Two records that agree on every key are the same record. */
  lemma SameFields(a: Config, b: Config)
    requires forall f :: Get(a, f) == Get(b, f)
    ensures a == b
  {
    assert Get(a, ViewportWidth) == Get(b, ViewportWidth);
    assert Get(a, ViewportHeight) == Get(b, ViewportHeight);
    assert Get(a, DeviceScaleFactor) == Get(b, DeviceScaleFactor);
    assert Get(a, FormatKey) == Get(b, FormatKey);
    assert Get(a, ImageQuality) == Get(b, ImageQuality);
    assert Get(a, FullPage) == Get(b, FullPage);
    assert Get(a, BlockAds) == Get(b, BlockAds);
    assert Get(a, BlockCookieBanners) == Get(b, BlockCookieBanners);
    assert Get(a, Delay) == Get(b, Delay);
    assert Get(a, DarkMode) == Get(b, DarkMode);
    assert Get(a, OmitBackground) == Get(b, OmitBackground);
  }

  // ------------------------------------------------------------- update

  function Or<T>(o: Option<T>, fallback: T): T {
    if o.Some? then o.value else fallback
  }

  /** `updateConfig`: `{ ...config, ...updates }`. Every key the update names takes its value; every other key keeps the old one. */
  function UpdateConfig(c: Config, u: ConfigUpdate): Config {
    Config(
      Or(u.viewportWidth, c.viewportWidth),
      Or(u.viewportHeight, c.viewportHeight),
      Or(u.deviceScaleFactor, c.deviceScaleFactor),
      Or(u.format, c.format),
      Or(u.imageQuality, c.imageQuality),
      Or(u.fullPage, c.fullPage),
      Or(u.blockAds, c.blockAds),
      Or(u.blockCookieBanners, c.blockCookieBanners),
      Or(u.delay, c.delay),
      Or(u.darkMode, c.darkMode),
      Or(u.omitBackground, c.omitBackground))
  }

  /** `{ ...u, ...v }` for two partial records: the keys of `v` win. */
  function Merge(u: ConfigUpdate, v: ConfigUpdate): ConfigUpdate {
    ConfigUpdate(
      if v.viewportWidth.Some? then v.viewportWidth else u.viewportWidth,
      if v.viewportHeight.Some? then v.viewportHeight else u.viewportHeight,
      if v.deviceScaleFactor.Some? then v.deviceScaleFactor else u.deviceScaleFactor,
      if v.format.Some? then v.format else u.format,
      if v.imageQuality.Some? then v.imageQuality else u.imageQuality,
      if v.fullPage.Some? then v.fullPage else u.fullPage,
      if v.blockAds.Some? then v.blockAds else u.blockAds,
      if v.blockCookieBanners.Some? then v.blockCookieBanners else u.blockCookieBanners,
      if v.delay.Some? then v.delay else u.delay,
      if v.darkMode.Some? then v.darkMode else u.darkMode,
      if v.omitBackground.Some? then v.omitBackground else u.omitBackground)
  }

  /** The spread, key by key: every key the update names takes its value; every other key keeps the old one. */
  lemma UpdateKeys(c: Config, u: ConfigUpdate)
    ensures forall f :: Get(UpdateConfig(c, u), f) == (if Named(u, f).Some? then Named(u, f).value else Get(c, f))
  {
    forall f
      ensures Get(UpdateConfig(c, u), f) == (if Named(u, f).Some? then Named(u, f).value else Get(c, f))
    {
      match f
      case ViewportWidth =>
      case ViewportHeight =>
      case DeviceScaleFactor =>
      case FormatKey =>
      case ImageQuality =>
      case FullPage =>
      case BlockAds =>
      case BlockCookieBanners =>
      case Delay =>
      case DarkMode =>
      case OmitBackground =>
    }
  }

  /** Merging two partial records, key by key: a key of the second wins over the same key of the first. */
  lemma MergeKeys(u: ConfigUpdate, v: ConfigUpdate)
    ensures forall f :: Named(Merge(u, v), f) == (if Named(v, f).Some? then Named(v, f) else Named(u, f))
  {
    forall f
      ensures Named(Merge(u, v), f) == (if Named(v, f).Some? then Named(v, f) else Named(u, f))
    {
      match f
      case ViewportWidth =>
      case ViewportHeight =>
      case DeviceScaleFactor =>
      case FormatKey =>
      case ImageQuality =>
      case FullPage =>
      case BlockAds =>
      case BlockCookieBanners =>
      case Delay =>
      case DarkMode =>
      case OmitBackground =>
    }
  }

  /** An update without keys changes nothing. */
  lemma UpdateNothing(c: Config)
    ensures UpdateConfig(c, NoUpdates) == c
  {
    UpdateKeys(c, NoUpdates);
    SameFields(UpdateConfig(c, NoUpdates), c);
  }

  /** Two updates in a row are one update with the merged keys. */
  lemma UpdateTwice(c: Config, u: ConfigUpdate, v: ConfigUpdate)
    ensures UpdateConfig(UpdateConfig(c, u), v) == UpdateConfig(c, Merge(u, v))
  {
    UpdateKeys(c, u);
    UpdateKeys(UpdateConfig(c, u), v);
    UpdateKeys(c, Merge(u, v));
    MergeKeys(u, v);
    SameFields(UpdateConfig(UpdateConfig(c, u), v), UpdateConfig(c, Merge(u, v)));
  }

  /** Applying the same update again changes nothing more. */
  lemma UpdateIdempotent(c: Config, u: ConfigUpdate)
    ensures UpdateConfig(UpdateConfig(c, u), u) == UpdateConfig(c, u)
  {
    UpdateKeys(c, u);
    UpdateKeys(UpdateConfig(c, u), u);
    SameFields(UpdateConfig(UpdateConfig(c, u), u), UpdateConfig(c, u));
  }

  // ------------------------------------------------------------ presets

  datatype Preset = Preset(name: string, width: int, height: int)

  /** `devicePresets`, in the order the buttons show them. */
  const DevicePresets: seq<Preset> := [
    Preset("Desktop HD", 1920, 1080),
    Preset("Desktop FHD", 1920, 1200),
    Preset("Laptop", 1366, 768),
    Preset("Tablet", 768, 1024),
    Preset("Mobile", 375, 667)]

  function SizeUpdate(p: Preset): ConfigUpdate {
    NoUpdates.(viewportWidth := Some(p.width), viewportHeight := Some(p.height))
  }

  /** `setDevicePreset`: the viewport takes the preset's size and nothing else changes. */
  function SetDevicePreset(c: Config, p: Preset): (r: Config)
    ensures r == c.(viewportWidth := p.width, viewportHeight := p.height)
  {
    UpdateConfig(c, SizeUpdate(p))
  }

  /** A preset button is drawn as selected when both the width and the height match. */
  predicate IsHighlighted(c: Config, p: Preset) {
    c.viewportWidth == p.width && c.viewportHeight == p.height
  }

  /** Every preset has a positive size. */
  lemma PresetsPositive()
    ensures forall i :: 0 <= i < |DevicePresets| ==> DevicePresets[i].width > 0 && DevicePresets[i].height > 0
  {
  }

  /** No two presets have the same size, though two share a width. */
  lemma PresetSizesDistinct()
    ensures forall i, j :: 0 <= i < j < |DevicePresets| ==>
      (DevicePresets[i].width, DevicePresets[i].height) != (DevicePresets[j].width, DevicePresets[j].height)
    ensures DevicePresets[0].width == DevicePresets[1].width
  {
  }

  /** After choosing a preset, that preset and no other is highlighted. */
  lemma ChosenPresetAloneHighlighted(c: Config, i: int)
    requires 0 <= i < |DevicePresets|
    ensures forall j :: 0 <= j < |DevicePresets| ==>
      (IsHighlighted(SetDevicePreset(c, DevicePresets[i]), DevicePresets[j]) <==> j == i)
  {
    PresetSizesDistinct();
    var r := SetDevicePreset(c, DevicePresets[i]);
    forall j | 0 <= j < |DevicePresets| && j != i
      ensures !IsHighlighted(r, DevicePresets[j])
    {
      var a, b := DevicePresets[i], DevicePresets[j];
      if j < i {
        assert (b.width, b.height) != (a.width, a.height);
      } else {
        assert (a.width, a.height) != (b.width, b.height);
      }
    }
  }

  // ----------------------------------------------------- selects, sliders

  /** The width select's items. */
  const WidthOptions: seq<int> := [1920, 1366, 1280, 768, 375]

  /** The height select's items. */
  const HeightOptions: seq<int> := [1080, 1200, 800, 1024, 667]

  /** The values a slider from `min` to `max` in steps of `step` can take, from `min` upwards. */
  function SliderStops(min: int, max: int, step: int): seq<int>
    requires 0 < step && min <= max
  {
    seq((max - min) / step + 1, i => min + i * step)
  }

  /** Multiplying by a positive step keeps the sign, and a negative multiple is at most `-step`. */
  lemma StepSign(a: int, step: int)
    requires 0 < step
    ensures 0 <= a ==> 0 <= a * step
    ensures a < 0 ==> a * step <= -step
  {
  }

  /** A multiple of `step` leaves no remainder. */
  lemma MultipleOfStep(q: int, step: int)
    requires 0 < step
    ensures (q * step) % step == 0
  {
    var d, r := (q * step) / step, (q * step) % step;
    assert (q - d) * step == r;
    StepSign(q - d - 1, step);
    StepSign(d - q - 1, step);
    assert (q - d - 1) * step == r - step;
    assert (d - q - 1) * step == -r - step;
  }

  /** The `i`-th of `n + 1` stops lies in range and a whole number of steps above `min`. */
  lemma StopInRange(min: int, step: int, n: int, i: int)
    requires 0 < step && 0 <= i <= n
    ensures min <= min + i * step <= min + n * step
    ensures (min + i * step - min) % step == 0
  {
    StepSign(i, step);
    StepSign(n - i, step);
    assert (n - i) * step == n * step - i * step;
    MultipleOfStep(i, step);
  }

  /** A value in range a whole number of steps above `min` is the stop numbered by its quotient. */
  lemma StopOfValue(min: int, step: int, n: int, v: int)
    requires 0 < step && min <= v <= min + n * step && (v - min) % step == 0
    ensures 0 <= (v - min) / step <= n
    ensures v == min + (v - min) / step * step
  {
    var i := (v - min) / step;
    assert v - min == i * step;
    StepSign(i, step);
    StepSign(n - i, step);
    assert (n - i) * step == n * step - i * step;
  }

  /**
   * When the range is a whole number of steps, a slider stops exactly on
   * the values from `min` to `max` that are a whole number of steps above `min`.
   */
  lemma SliderStopsAre(min: int, max: int, step: int, v: int)
    requires 0 < step && min <= max && (max - min) % step == 0
    ensures v in SliderStops(min, max, step) <==> min <= v <= max && (v - min) % step == 0
  {
    var stops := SliderStops(min, max, step);
    var n := (max - min) / step;
    assert max == min + n * step;
    if v in stops {
      var i :| 0 <= i < |stops| && stops[i] == v;
      StopInRange(min, step, n, i);
    }
    if min <= v <= max && (v - min) % step == 0 {
      StopOfValue(min, step, n, v);
      assert stops[(v - min) / step] == v;
    }
  }

  /** The image-quality slider: 10 to 100 in steps of 10. */
  function QualityStops(): seq<int> {
    SliderStops(10, 100, 10)
  }

  /** The delay slider: 0 to 10 seconds in steps of 1. */
  function DelayStops(): seq<int> {
    SliderStops(0, 10, 1)
  }

  /** The quality slider stops on the multiples of ten from 10 to 100. */
  lemma QualityStopsAre(v: int)
    ensures v in QualityStops() <==> 10 <= v <= 100 && v % 10 == 0
  {
    SliderStopsAre(10, 100, 10, v);
    assert (v - 10) % 10 == v % 10;
  }

  /** The delay slider stops on every whole second from 0 to 10. */
  lemma DelayStopsAre(v: int)
    ensures v in DelayStops() <==> 0 <= v <= 10
  {
    SliderStopsAre(0, 10, 1, v);
  }

  // ------------------------------------------------------------ controls

  /** The panel's controls and the value each hands to its handler. */
  datatype Control =
    | WidthSelect(width: int)
    | HeightSelect(height: int)
    | FormatSelect(format: Format)
    | QualitySlider(quality: int)
    | FullPageSwitch(fullPage: bool)
    | DarkModeSwitch(darkMode: bool)
    | OmitBackgroundSwitch(omitBackground: bool)
    | BlockAdsSwitch(blockAds: bool)
    | BlockCookieBannersSwitch(blockCookieBanners: bool)
    | DelaySlider(delay: int)
    | PresetButton(preset: Preset)

  /** The values the controls can produce: a listed item, a slider stop, one of the presets. */
  predicate Offered(ctl: Control) {
    match ctl
    case WidthSelect(w) => w in WidthOptions
    case HeightSelect(h) => h in HeightOptions
    case QualitySlider(q) => q in QualityStops()
    case DelaySlider(d) => d in DelayStops()
    case PresetButton(p) => p in DevicePresets
    case _ => true
  }

  /** The object each handler passes to `updateConfig`. */
  function ControlUpdate(ctl: Control): ConfigUpdate {
    match ctl
    case WidthSelect(w) => NoUpdates.(viewportWidth := Some(w))
    case HeightSelect(h) => NoUpdates.(viewportHeight := Some(h))
    case FormatSelect(f) => NoUpdates.(format := Some(f))
    case QualitySlider(q) => NoUpdates.(imageQuality := Some(q))
    case FullPageSwitch(b) => NoUpdates.(fullPage := Some(b))
    case DarkModeSwitch(b) => NoUpdates.(darkMode := Some(b))
    case OmitBackgroundSwitch(b) => NoUpdates.(omitBackground := Some(b))
    case BlockAdsSwitch(b) => NoUpdates.(blockAds := Some(b))
    case BlockCookieBannersSwitch(b) => NoUpdates.(blockCookieBanners := Some(b))
    case DelaySlider(d) => NoUpdates.(delay := Some(d))
    case PresetButton(p) => SizeUpdate(p)
  }

  /** The configuration after one use of a control. */
  function Apply(c: Config, ctl: Control): Config {
    UpdateConfig(c, ControlUpdate(ctl))
  }

  /** The key a single-key control sets, and the value it sets it to. */
  function ControlKey(ctl: Control): (f: Field)
    requires !ctl.PresetButton?
  {
    match ctl
    case WidthSelect(_) => ViewportWidth
    case HeightSelect(_) => ViewportHeight
    case FormatSelect(_) => FormatKey
    case QualitySlider(_) => ImageQuality
    case FullPageSwitch(_) => FullPage
    case DarkModeSwitch(_) => DarkMode
    case OmitBackgroundSwitch(_) => OmitBackground
    case BlockAdsSwitch(_) => BlockAds
    case BlockCookieBannersSwitch(_) => BlockCookieBanners
    case DelaySlider(_) => Delay
  }

  function ControlValue(ctl: Control): Value
    requires !ctl.PresetButton?
  {
    match ctl
    case WidthSelect(w) => Number(w)
    case HeightSelect(h) => Number(h)
    case FormatSelect(f) => Kind(f)
    case QualitySlider(q) => Number(q)
    case FullPageSwitch(b) => Flag(b)
    case DarkModeSwitch(b) => Flag(b)
    case OmitBackgroundSwitch(b) => Flag(b)
    case BlockAdsSwitch(b) => Flag(b)
    case BlockCookieBannersSwitch(b) => Flag(b)
    case DelaySlider(d) => Number(d)
  }

  /** Every control but a preset button sets its own key and leaves the other ten alone. */
  lemma ControlSetsOneKey(c: Config, ctl: Control)
    requires !ctl.PresetButton?
    ensures Get(Apply(c, ctl), ControlKey(ctl)) == ControlValue(ctl)
    ensures forall f :: f != ControlKey(ctl) ==> Get(Apply(c, ctl), f) == Get(c, f)
  {
    var u := ControlUpdate(ctl);
    UpdateKeys(c, u);
    assert forall f :: f != ControlKey(ctl) ==> Named(u, f) == None;
    assert Named(u, ControlKey(ctl)) == Some(ControlValue(ctl));
  }

  /** The ranges the controls keep a configuration in. */
  predicate WithinControls(c: Config) {
    c.viewportWidth > 0 && c.viewportHeight > 0
    && 10 <= c.imageQuality <= 100 && c.imageQuality % 10 == 0
    && 0 <= c.delay <= 10
  }

  /** Using any control with a value it offers keeps the configuration within those ranges. */
  lemma ApplyKeepsRanges(c: Config, ctl: Control)
    requires WithinControls(c) && Offered(ctl)
    ensures WithinControls(Apply(c, ctl))
  {
    match ctl
    case QualitySlider(q) => QualityStopsAre(q);
    case DelaySlider(d) => DelayStopsAre(d);
    case PresetButton(p) => PresetsPositive();
    case _ =>
  }

  /** A width or height chosen through its select is one of the listed, positive sizes. */
  lemma SelectedSizeListed(c: Config, w: int, h: int)
    requires w in WidthOptions && h in HeightOptions
    ensures Apply(c, WidthSelect(w)).viewportWidth in WidthOptions
    ensures Apply(c, WidthSelect(w)).viewportWidth > 0
    ensures Apply(c, HeightSelect(h)).viewportHeight in HeightOptions
    ensures Apply(c, HeightSelect(h)).viewportHeight > 0
  {
  }

  /** The quality and delay a slider sets are in range and on a stop. */
  lemma SlidersInRange(c: Config, q: int, d: int)
    requires q in QualityStops() && d in DelayStops()
    ensures 10 <= Apply(c, QualitySlider(q)).imageQuality <= 100
    ensures Apply(c, QualitySlider(q)).imageQuality % 10 == 0
    ensures 0 <= Apply(c, DelaySlider(d)).delay <= 10
  {
    QualityStopsAre(q);
    DelayStopsAre(d);
  }
}
