/**
  The fullscreen viewer (components/FullscreenViewer.tsx): the filter settings
  record with its defaults, single-field updates and reset; the CSS `filter`
  string; the speed and pause styles; the colour-overlay lookup; the HTML
  shown in the preview; and the frame clock injected into canvas scripts.
 */
module Viewer {
  import opened Wrappers
  import opened Text
  import opened Catalogue

  // -------------------------------------------------------------- settings

  /** The five selectable playback speeds: 0.25x, 0.5x, 1x, 2x and 4x. */
  datatype Speed = Quarter | Half | Normal | Double | Quadruple

  const SpeedOptions: seq<Speed> := [Quarter, Half, Normal, Double, Quadruple]

  /** The speed factor. */
  function SpeedValue(s: Speed): (v: real)
    ensures v > 0.0
  {
    match s
    case Quarter => 0.25
    case Half => 0.5
    case Normal => 1.0
    case Double => 2.0
    case Quadruple => 4.0
  }

  /** How a template literal prints the speed factor. */
  function SpeedText(s: Speed): string {
    match s
    case Quarter => "0.25"
    case Half => "0.5"
    case Normal => "1"
    case Double => "2"
    case Quadruple => "4"
  }

  /** The selectable speed whose factor is the reciprocal of `s`. */
  function Reciprocal(s: Speed): (r: Speed)
    ensures SpeedValue(r) * SpeedValue(s) == 1.0
  {
    match s
    case Quarter => Quadruple
    case Half => Double
    case Normal => Normal
    case Double => Half
    case Quadruple => Quarter
  }

  /** The settings panel. The sliders are integer ranges; the overlay is kept as its id. */
  datatype FilterSettings = FilterSettings(
    blur: int,
    grayscale: int,
    sepia: int,
    invert: bool,
    contrast: int,
    brightness: int,
    saturate: int,
    hueRotate: int,
    crtEffect: bool,
    showStatusText: bool,
    colorOverlay: string,
    speed: Speed,
    isPaused: bool)

  const Defaults := FilterSettings(0, 0, 0, false, 100, 100, 100, 0, false, false, "none", Normal, false)

  /** The names of the settings fields, as `keyof FilterSettings`. */
  datatype Field =
    | Blur | Grayscale | Sepia | Invert | Contrast | Brightness | Saturate | HueRotate
    | CrtEffect | ShowStatusText | ColorOverlay | PlaybackSpeed | IsPaused

  /** A field's value, tagged by its type. */
  datatype FieldValue = Number(n: int) | Flag(b: bool) | OverlayId(id: string) | SpeedChoice(s: Speed)

  /** The value `f[key]`. */
  function Get(f: FilterSettings, key: Field): FieldValue {
    match key
    case Blur => Number(f.blur)
    case Grayscale => Number(f.grayscale)
    case Sepia => Number(f.sepia)
    case Invert => Flag(f.invert)
    case Contrast => Number(f.contrast)
    case Brightness => Number(f.brightness)
    case Saturate => Number(f.saturate)
    case HueRotate => Number(f.hueRotate)
    case CrtEffect => Flag(f.crtEffect)
    case ShowStatusText => Flag(f.showStatusText)
    case ColorOverlay => OverlayId(f.colorOverlay)
    case PlaybackSpeed => SpeedChoice(f.speed)
    case IsPaused => Flag(f.isPaused)
  }

  /** `value` has the type `FilterSettings[key]`, which the typed signature of the update demands. */
  predicate Fits(key: Field, value: FieldValue) {
    match key
    case Invert | CrtEffect | ShowStatusText | IsPaused => value.Flag?
    case ColorOverlay => value.OverlayId?
    case PlaybackSpeed => value.SpeedChoice?
    case _ => value.Number?
  }

  /** `{ ...prev, [key]: value }`: the named field takes the value and every other field keeps its own. */
  function UpdateFilter(f: FilterSettings, key: Field, value: FieldValue): (r: FilterSettings)
    requires Fits(key, value)
    ensures Get(r, key) == value
    ensures forall k :: k != key ==> Get(r, k) == Get(f, k)
  {
    match key
    case Blur => f.(blur := value.n)
    case Grayscale => f.(grayscale := value.n)
    case Sepia => f.(sepia := value.n)
    case Invert => f.(invert := value.b)
    case Contrast => f.(contrast := value.n)
    case Brightness => f.(brightness := value.n)
    case Saturate => f.(saturate := value.n)
    case HueRotate => f.(hueRotate := value.n)
    case CrtEffect => f.(crtEffect := value.b)
    case ShowStatusText => f.(showStatusText := value.b)
    case ColorOverlay => f.(colorOverlay := value.id)
    case PlaybackSpeed => f.(speed := value.s)
    case IsPaused => f.(isPaused := value.b)
  }

  /** The fields determine the record, so "every other field unchanged" leaves nothing else to change. */
  lemma FieldsDetermineSettings(a: FilterSettings, b: FilterSettings)
    requires forall k :: Get(a, k) == Get(b, k)
    ensures a == b
  {
    assert Get(a, Blur) == Get(b, Blur) && Get(a, Grayscale) == Get(b, Grayscale);
    assert Get(a, Sepia) == Get(b, Sepia) && Get(a, Invert) == Get(b, Invert);
    assert Get(a, Contrast) == Get(b, Contrast) && Get(a, Brightness) == Get(b, Brightness);
    assert Get(a, Saturate) == Get(b, Saturate) && Get(a, HueRotate) == Get(b, HueRotate);
    assert Get(a, CrtEffect) == Get(b, CrtEffect) && Get(a, ShowStatusText) == Get(b, ShowStatusText);
    assert Get(a, ColorOverlay) == Get(b, ColorOverlay) && Get(a, PlaybackSpeed) == Get(b, PlaybackSpeed);
    assert Get(a, IsPaused) == Get(b, IsPaused);
  }

  /** Writing back a field's own value changes nothing. */
  lemma UpdateWithOwnValue(f: FilterSettings, key: Field)
    ensures UpdateFilter(f, key, Get(f, key)) == f
  {
    FieldsDetermineSettings(UpdateFilter(f, key, Get(f, key)), f);
  }

  /** A second write to the same field overrides the first. */
  lemma UpdateOverrides(f: FilterSettings, key: Field, v: FieldValue, w: FieldValue)
    requires Fits(key, v) && Fits(key, w)
    ensures UpdateFilter(UpdateFilter(f, key, v), key, w) == UpdateFilter(f, key, w)
  {
    var once := UpdateFilter(f, key, v);
    FieldsDetermineSettings(UpdateFilter(once, key, w), UpdateFilter(f, key, w));
  }

  /** Opening the viewer restores the defaults; while it stays closed the settings are kept. */
  function OnOpenChange(isOpen: bool, f: FilterSettings): (r: FilterSettings)
    ensures isOpen ==> r == Defaults && FilterCss(r) == "none" && OverlayGradient(r.colorOverlay) == "transparent"
    ensures !isOpen ==> r == f
  {
    if isOpen then Defaults else f
  }

  /** The reset button restores the defaults, whatever was changed before (its click sound is left out). */
  function ResetFilters(f: FilterSettings): (r: FilterSettings)
    ensures forall k :: Get(r, k) == Get(Defaults, k)
    ensures FilterCss(r) == "none" && SpeedStyleFor(r).AnimationDuration?
  {
    Defaults
  }

  // ------------------------------------------------------------ CSS filter

  /** One component of the CSS `filter` value. */
  datatype FilterPart =
    | BlurPx(n: int) | GrayscalePct(n: int) | SepiaPct(n: int) | InvertOne
    | ContrastPct(n: int) | BrightnessPct(n: int) | SaturatePct(n: int) | HueRotateDeg(n: int)

  /** The component's position in the emitted order. */
  function Rank(p: FilterPart): nat {
    match p
    case BlurPx(_) => 0
    case GrayscalePct(_) => 1
    case SepiaPct(_) => 2
    case InvertOne => 3
    case ContrastPct(_) => 4
    case BrightnessPct(_) => 5
    case SaturatePct(_) => 6
    case HueRotateDeg(_) => 7
  }

  function Render(p: FilterPart): (r: string)
    ensures |r| >= 9
  {
    match p
    case BlurPx(n) => "blur(" + IntText(n) + "px)"
    case GrayscalePct(n) => "grayscale(" + IntText(n) + "%)"
    case SepiaPct(n) => "sepia(" + IntText(n) + "%)"
    case InvertOne => "invert(1)"
    case ContrastPct(n) => "contrast(" + IntText(n) + "%)"
    case BrightnessPct(n) => "brightness(" + IntText(n) + "%)"
    case SaturatePct(n) => "saturate(" + IntText(n) + "%)"
    case HueRotateDeg(n) => "hue-rotate(" + IntText(n) + "deg)"
  }

  function RenderAll(ps: seq<FilterPart>): (r: seq<string>)
    ensures |r| == |ps|
  {
    if ps == [] then [] else [Render(ps[0])] + RenderAll(ps[1..])
  }

  /** The number of filter components. */
  const RankCount: nat := 8

  /** The component of rank `k`, carrying the current setting. */
  function PartOfRank(f: FilterSettings, k: nat): (p: FilterPart)
    requires k < 8
    ensures Rank(p) == k
  {
    match k
    case 0 => BlurPx(f.blur)
    case 1 => GrayscalePct(f.grayscale)
    case 2 => SepiaPct(f.sepia)
    case 3 => InvertOne
    case 4 => ContrastPct(f.contrast)
    case 5 => BrightnessPct(f.brightness)
    case 6 => SaturatePct(f.saturate)
    case _ => HueRotateDeg(f.hueRotate)
  }

  /** The push condition of rank `k`. */
  predicate Pushed(f: FilterSettings, k: nat)
    requires k < 8
  {
    match k
    case 0 => f.blur > 0
    case 1 => f.grayscale > 0
    case 2 => f.sepia > 0
    case 3 => f.invert
    case 4 => f.contrast != 100
    case 5 => f.brightness != 100
    case 6 => f.saturate != 100
    case _ => f.hueRotate > 0
  }

  /** The components pushed by the first `k` conditional pushes. */
  function PartsUpTo(f: FilterSettings, k: nat): seq<FilterPart>
    requires k <= 8
  {
    if k == 0 then []
    else PartsUpTo(f, k - 1) + (if Pushed(f, k - 1) then [PartOfRank(f, k - 1)] else [])
  }

  /** The components emitted for the settings, in emission order. */
  function Parts(f: FilterSettings): seq<FilterPart> {
    PartsUpTo(f, RankCount)
  }

  /** The value of the CSS `filter` property. */
  function FilterCss(f: FilterSettings): string {
    var parts := RenderAll(Parts(f));
    if |parts| > 0 then Join(parts, " ") else "none"
  }

  /** Neutral values: blur, grayscale, sepia and hue rotation 0, no inversion, contrast, brightness and saturation 100. */
  predicate Departs(f: FilterSettings, k: nat)
    requires k < 8
  {
    if k == 0 then f.blur != 0
    else if k == 1 then f.grayscale != 0
    else if k == 2 then f.sepia != 0
    else if k == 3 then f.invert
    else if k == 4 then f.contrast != 100
    else if k == 5 then f.brightness != 100
    else if k == 6 then f.saturate != 100
    else f.hueRotate != 0
  }

  /** Every slider keeps its value within its range. */
  predicate InSliderRanges(f: FilterSettings) {
    && 0 <= f.blur <= 10 && 0 <= f.grayscale <= 100 && 0 <= f.sepia <= 100
    && 50 <= f.contrast <= 200 && 50 <= f.brightness <= 200 && 0 <= f.saturate <= 200
    && 0 <= f.hueRotate <= 360
  }

  /** For settings within the slider ranges, a component is pushed exactly when its setting departs from neutral. */
  lemma PushedIffDeparts(f: FilterSettings, k: nat)
    requires InSliderRanges(f) && k < 8
    ensures Pushed(f, k) <==> Departs(f, k)
  {
  }

  /** The first `k` pushes emit, in increasing rank, exactly the components of rank below `k` whose condition holds. */
  lemma {:induction false} PartsUpToCharacterised(f: FilterSettings, k: nat)
    requires k <= 8
    ensures forall p :: p in PartsUpTo(f, k) ==> Rank(p) < k && Pushed(f, Rank(p)) && p == PartOfRank(f, Rank(p))
    ensures forall r :: 0 <= r < k && Pushed(f, r) ==> PartOfRank(f, r) in PartsUpTo(f, k)
    ensures forall i, j :: 0 <= i < j < |PartsUpTo(f, k)| ==> Rank(PartsUpTo(f, k)[i]) < Rank(PartsUpTo(f, k)[j])
    ensures |PartsUpTo(f, k)| <= k
  {
    if k > 0 {
      PartsUpToCharacterised(f, k - 1);
      var prev := PartsUpTo(f, k - 1);
      var last: seq<FilterPart> := if Pushed(f, k - 1) then [PartOfRank(f, k - 1)] else [];
      var ps := prev + last;
      assert PartsUpTo(f, k) == ps;
      forall i, j | 0 <= i < j < |ps|
        ensures Rank(ps[i]) < Rank(ps[j])
      {
        assert ps[i] == prev[i];
        assert prev[i] in prev;
        if j < |prev| {
          assert ps[j] == prev[j];
        } else {
          assert ps[j] == PartOfRank(f, k - 1);
        }
      }
    }
  }

  /**
    The components of the filter string: one per setting that departs from
    its neutral value, carrying that value, in the fixed order blur,
    grayscale, sepia, invert, contrast, brightness, saturate, hue-rotate, and
    never more than eight.
   */
  lemma PartsCharacterised(f: FilterSettings)
    requires InSliderRanges(f)
    ensures forall p :: p in Parts(f) ==> Rank(p) < 8 && Departs(f, Rank(p)) && p == PartOfRank(f, Rank(p))
    ensures forall k :: 0 <= k < 8 && Departs(f, k) ==> PartOfRank(f, k) in Parts(f)
    ensures forall i, j :: 0 <= i < j < |Parts(f)| ==> Rank(Parts(f)[i]) < Rank(Parts(f)[j])
    ensures |Parts(f)| <= 8
  {
    PartsUpToCharacterised(f, RankCount);
    forall k | 0 <= k < 8
      ensures Pushed(f, k) <==> Departs(f, k)
    {
      PushedIffDeparts(f, k);
    }
  }

  /** The filter is 'none' exactly when nothing is pushed, which for in-range settings means every setting is neutral. */
  lemma FilterNoneIffNeutral(f: FilterSettings)
    ensures FilterCss(f) == "none" <==> Parts(f) == []
    ensures InSliderRanges(f) ==> (FilterCss(f) == "none" <==> forall k :: 0 <= k < 8 ==> !Departs(f, k))
    ensures FilterCss(Defaults) == "none"
  {
    var parts := RenderAll(Parts(f));
    if |parts| > 0 {
      assert |Join(parts, " ")| >= |parts[0]| >= 9;
    }
    if InSliderRanges(f) {
      PartsCharacterised(f);
      if Parts(f) != [] {
        assert Parts(f)[0] in Parts(f);
      }
    }
    PartsUpToCharacterised(Defaults, RankCount);
  }

  lemma RenderAllAppend(a: seq<FilterPart>, b: seq<FilterPart>)
    ensures RenderAll(a + b) == RenderAll(a) + RenderAll(b)
  {
    if a == [] {
      assert a + b == b;
    } else {
      assert (a + b)[0] == a[0];
      assert (a + b)[1..] == a[1..] + b;
      RenderAllAppend(a[1..], b);
    }
  }

  /** The rendered components after the first `k` conditional pushes. */
  ghost function RenderedUpTo(f: FilterSettings, k: nat): seq<string>
    requires k <= RankCount
  {
    if k == 0 then []
    else if Pushed(f, k - 1) then RenderedUpTo(f, k - 1) + [Render(PartOfRank(f, k - 1))]
    else RenderedUpTo(f, k - 1)
  }

  lemma {:induction false} RenderedUpToIsRenderAll(f: FilterSettings, k: nat)
    requires k <= RankCount
    ensures RenderedUpTo(f, k) == RenderAll(PartsUpTo(f, k))
  {
    if k > 0 {
      RenderedUpToIsRenderAll(f, k - 1);
      RenderAllAppend(PartsUpTo(f, k - 1), if Pushed(f, k - 1) then [PartOfRank(f, k - 1)] else []);
      if !Pushed(f, k - 1) {
        assert PartsUpTo(f, k) == PartsUpTo(f, k - 1) + [];
      }
    }
  }

  /** Builds the filter string as the component does, pushing one rendered component per condition that holds. */
  method GetFilterString(f: FilterSettings) returns (css: string)
    ensures css == FilterCss(f)
  {
    var parts: seq<string> := [];
    ghost var p0 := parts;
    if f.blur > 0 { parts := parts + [Render(BlurPx(f.blur))]; }
    ghost var p1 := parts;
    if f.grayscale > 0 { parts := parts + [Render(GrayscalePct(f.grayscale))]; }
    ghost var p2 := parts;
    if f.sepia > 0 { parts := parts + [Render(SepiaPct(f.sepia))]; }
    ghost var p3 := parts;
    if f.invert { parts := parts + [Render(InvertOne)]; }
    ghost var p4 := parts;
    if f.contrast != 100 { parts := parts + [Render(ContrastPct(f.contrast))]; }
    ghost var p5 := parts;
    if f.brightness != 100 { parts := parts + [Render(BrightnessPct(f.brightness))]; }
    ghost var p6 := parts;
    if f.saturate != 100 { parts := parts + [Render(SaturatePct(f.saturate))]; }
    ghost var p7 := parts;
    if f.hueRotate > 0 { parts := parts + [Render(HueRotateDeg(f.hueRotate))]; }
    ghost var p8 := parts;
    EarlyPushes(f, p0, p1, p2, p3, p4);
    LatePushes(f, p4, p5, p6, p7, p8);
    RenderedUpToIsRenderAll(f, RankCount);
    css := if |parts| > 0 then Join(parts, " ") else "none";
  }

  /** The pushes for blur, grayscale, sepia and invert. */
  lemma EarlyPushes(f: FilterSettings, p0: seq<string>, p1: seq<string>, p2: seq<string>, p3: seq<string>, p4: seq<string>)
    requires p0 == []
    requires p1 == if f.blur > 0 then p0 + [Render(BlurPx(f.blur))] else p0
    requires p2 == if f.grayscale > 0 then p1 + [Render(GrayscalePct(f.grayscale))] else p1
    requires p3 == if f.sepia > 0 then p2 + [Render(SepiaPct(f.sepia))] else p2
    requires p4 == if f.invert then p3 + [Render(InvertOne)] else p3
    ensures p4 == RenderedUpTo(f, 4)
  {
    PushStep(f, 0, p0, p1);
    PushStep(f, 1, p1, p2);
    PushStep(f, 2, p2, p3);
    PushStep(f, 3, p3, p4);
  }

  /** The pushes for contrast, brightness, saturate and hue-rotate. */
  lemma LatePushes(f: FilterSettings, p4: seq<string>, p5: seq<string>, p6: seq<string>, p7: seq<string>, p8: seq<string>)
    requires p4 == RenderedUpTo(f, 4)
    requires p5 == if f.contrast != 100 then p4 + [Render(ContrastPct(f.contrast))] else p4
    requires p6 == if f.brightness != 100 then p5 + [Render(BrightnessPct(f.brightness))] else p5
    requires p7 == if f.saturate != 100 then p6 + [Render(SaturatePct(f.saturate))] else p6
    requires p8 == if f.hueRotate > 0 then p7 + [Render(HueRotateDeg(f.hueRotate))] else p7
    ensures p8 == RenderedUpTo(f, RankCount)
  {
    PushStep(f, 4, p4, p5);
    PushStep(f, 5, p5, p6);
    PushStep(f, 6, p6, p7);
    PushStep(f, 7, p7, p8);
  }

  lemma PushStep(f: FilterSettings, k: nat, before: seq<string>, after: seq<string>)
    requires k < RankCount && before == RenderedUpTo(f, k)
    requires after == if Pushed(f, k) then before + [Render(PartOfRank(f, k))] else before
    ensures after == RenderedUpTo(f, k + 1)
  {
  }

  // ------------------------------------------------------ speed and pause

  datatype SpeedStyle = PlayStatePaused | AnimationDuration(css: string)

  /** Paused stops the CSS animations whatever the speed; otherwise their duration is divided by the speed. */
  function SpeedStyleFor(f: FilterSettings): (s: SpeedStyle)
    ensures s.PlayStatePaused? <==> f.isPaused
    ensures s.AnimationDuration? ==> s.css == "calc(var(--animation-duration, 1s) / " + SpeedText(f.speed) + ")"
  {
    if f.isPaused then PlayStatePaused
    else AnimationDuration("calc(var(--animation-duration, 1s) / " + SpeedText(f.speed) + ")")
  }

  /** Changing the speed while paused changes nothing on screen. */
  lemma PausedIgnoresSpeed(f: FilterSettings, s: Speed)
    requires f.isPaused
    ensures SpeedStyleFor(f.(speed := s)) == SpeedStyleFor(f) == PlayStatePaused
  {
  }

  // --------------------------------------------------------- colour overlay

  datatype Overlay = Overlay(id: string, name: string, gradient: string)

  const ColorOverlays: seq<Overlay> := [
    Overlay("none", "None", "transparent"),
    Overlay("neon", "Neon", "radial-gradient(circle, rgba(16,185,129,0.4) 0%, transparent 70%)"),
    Overlay("matrix", "Matrix", "linear-gradient(180deg, rgba(0,255,0,0.15) 0%, rgba(0,100,0,0.3) 100%)"),
    Overlay("cyberpunk", "Cyber", "linear-gradient(135deg, rgba(139,92,246,0.3) 0%, rgba(236,72,153,0.3) 100%)"),
    Overlay("amber", "Amber", "radial-gradient(circle, rgba(245,158,11,0.35) 0%, rgba(180,83,9,0.2) 100%)"),
    Overlay("ice", "Ice", "radial-gradient(circle, rgba(56,189,248,0.35) 0%, rgba(14,165,233,0.2) 100%)")
  ]

  /** `find`: the first overlay with the id, if any. */
  function FindOverlay(overlays: seq<Overlay>, id: string): (r: Option<Overlay>)
    ensures r.None? <==> forall i :: 0 <= i < |overlays| ==> overlays[i].id != id
    ensures r.Some? ==> r.value in overlays && r.value.id == id
    ensures r.Some? ==> exists i :: 0 <= i < |overlays| && overlays[i] == r.value && forall j :: 0 <= j < i ==> overlays[j].id != id
  {
    if overlays == [] then None
    else if overlays[0].id == id then Some(overlays[0])
    else
      var r := FindOverlay(overlays[1..], id);
      assert forall i :: 0 < i < |overlays| ==> overlays[i] == overlays[1..][i - 1];
      if r.Some? then
        var k :| 0 <= k < |overlays[1..]| && overlays[1..][k] == r.value && forall j :: 0 <= j < k ==> overlays[1..][j].id != id;
        assert overlays[k + 1] == r.value;
        r
      else r
  }

  /** The overlay's gradient, falling back to 'transparent' for an unknown id or an empty gradient. */
  function OverlayGradient(id: string): string {
    var found := FindOverlay(ColorOverlays, id);
    if found.Some? && found.value.gradient != "" then found.value.gradient else "transparent"
  }

  /** No two overlays share an id. */
  lemma OverlayIdsDistinct()
    ensures forall i, j :: 0 <= i < j < |ColorOverlays| ==> ColorOverlays[i].id != ColorOverlays[j].id
  {
    var ids := ["none", "neon", "matrix", "cyberpunk", "amber", "ice"];
    assert forall i :: 0 <= i < |ColorOverlays| ==> ColorOverlays[i].id == ids[i];
    assert ids[0][1] == 'o' && ids[1][1] == 'e';
    assert ids[1][0] != ids[2][0] && ids[1][0] != ids[3][0] && ids[1][0] != ids[4][0] && ids[1][0] != ids[5][0];
  }

  /** Each listed overlay's id gives its gradient; 'none' and any unlisted id give 'transparent'. */
  lemma OverlayLookup(id: string)
    ensures forall i :: 0 <= i < |ColorOverlays| ==> OverlayGradient(ColorOverlays[i].id) == ColorOverlays[i].gradient
    ensures OverlayGradient("none") == "transparent"
    ensures (forall i :: 0 <= i < |ColorOverlays| ==> ColorOverlays[i].id != id) ==> OverlayGradient(id) == "transparent"
  {
    OverlayIdsDistinct();
    GradientsNonEmpty();
    forall i | 0 <= i < |ColorOverlays|
      ensures OverlayGradient(ColorOverlays[i].id) == ColorOverlays[i].gradient
    {
      FindDistinct(ColorOverlays, i);
    }
  }

  /** Every listed overlay has a gradient, so the `|| 'transparent'` fallback never replaces one. */
  lemma GradientsNonEmpty()
    ensures forall i :: 0 <= i < |ColorOverlays| ==> |ColorOverlays[i].gradient| > 0
  {
    assert |ColorOverlays[0].gradient| > 0 && |ColorOverlays[1].gradient| > 0 && |ColorOverlays[2].gradient| > 0;
    assert |ColorOverlays[3].gradient| > 0 && |ColorOverlays[4].gradient| > 0 && |ColorOverlays[5].gradient| > 0;
  }

  /** With distinct ids, looking up an overlay's own id finds that overlay. */
  lemma FindDistinct(overlays: seq<Overlay>, i: nat)
    requires i < |overlays|
    requires forall j, k :: 0 <= j < k < |overlays| ==> overlays[j].id != overlays[k].id
    ensures FindOverlay(overlays, overlays[i].id) == Some(overlays[i])
  {
    var found := FindOverlay(overlays, overlays[i].id);
    var k :| 0 <= k < |overlays| && overlays[k] == found.value && forall j :: 0 <= j < k ==> overlays[j].id != overlays[i].id;
  }

  // ---------------------------------------------------------- preview HTML

  /** The CSS custom properties the enlarged cube overrides, with their values. */
  const NeuralCubeOverrides: seq<(string, string)> := [
    ("--nc-size", "450px"), ("--nc-split", "225px"), ("--nc-font-base", "25px"),
    ("--nc-font-label", "17.5px"), ("--nc-font-content", "20px")]

  /** One `name: value !important;` line per override, indented as in the template. */
  function OverrideLines(props: seq<(string, string)>): string {
    if props == [] then ""
    else "            " + props[0].0 + ": " + props[0].1 + " !important;\n" + OverrideLines(props[1..])
  }

  /** The style block put in front of the cube's markup. */
  function NeuralCubePrefix(): (r: string)
    ensures |r| > 0
  {
    "\n        <style>\n          :root {\n" + OverrideLines(NeuralCubeOverrides) + "          }\n        </style>\n        "
  }

  const NeuralCubeSuffix := "\n      "

  /** Westworld markup: scripts removed and the 120-pixel canvas attributes doubled. */
  function WestworldHtml(html: string): (r: string)
    ensures |r| == |RemoveScripts(html)| <= |html|
    ensures !Contains(html, ScriptOpen) ==> |r| == |html|
    ensures !Contains(RemoveScripts(html), "width=\"120\"") && !Contains(RemoveScripts(html), "height=\"120\"") ==>
      r == RemoveScripts(html)
  {
    var stripped := RemoveScripts(html);
    RemoveScriptsShrinks(html);
    var wide := ReplaceAll(stripped, "width=\"120\"", "width=\"240\"");
    ReplaceAllSameLength(stripped, "width=\"120\"", "width=\"240\"");
    ReplaceAllSameLength(wide, "height=\"120\"", "height=\"240\"");
    ReplaceAll(wide, "height=\"120\"", "height=\"240\"")
  }

  /** The markup put into the preview. */
  function ModifiedHtml(a: Animation, f: FilterSettings): (r: string)
    ensures a.category == Westworld ==> r == WestworldHtml(a.html)
    ensures a.category != Westworld ==> r == CssAnimationHtml(a, f)
  {
    if a.category == Westworld then WestworldHtml(a.html) else CssAnimationHtml(a, f)
  }

  /** CSS-animated markup: the enlarged cube gets its style overrides, and a speed other than 1x, unpaused, gets the multiplier wrapper. */
  function CssAnimationHtml(a: Animation, f: FilterSettings): (r: string)
    ensures a.name != "NEURAL_CUBE" && !SpeedWrapped(f) ==> r == a.html
  {
    var html := if a.name == "NEURAL_CUBE" then NeuralCubePrefix() + a.html + NeuralCubeSuffix else a.html;
    if !f.isPaused && f.speed != Normal then SpeedOpen(f) + html + "</div>" else html
  }

  /** Whether the preview wraps the markup in the speed multiplier. */
  predicate SpeedWrapped(f: FilterSettings) {
    !f.isPaused && f.speed != Normal
  }

  /** The wrapper's opening tag, carrying the reciprocal of the speed. */
  function SpeedOpen(f: FilterSettings): (r: string)
    ensures |r| > 0
  {
    "<div style=\"--speed-multiplier: " + SpeedText(Reciprocal(f.speed)) + ";\">"
  }

  /** What the preview adds in front of the animation's markup. */
  function Opening(a: Animation, f: FilterSettings): string {
    (if SpeedWrapped(f) then SpeedOpen(f) else "") + (if a.name == "NEURAL_CUBE" then NeuralCubePrefix() else "")
  }

  /** What the preview adds behind the animation's markup. */
  function Closing(a: Animation, f: FilterSettings): string {
    (if a.name == "NEURAL_CUBE" then NeuralCubeSuffix else "") + (if SpeedWrapped(f) then "</div>" else "")
  }

  /**
    Outside Westworld the animation's own markup appears intact between an
    opening and a closing part, each empty exactly when neither the cube
    enlargement nor the speed wrapper applies.
   */
  lemma ModifiedHtmlKeepsMarkup(a: Animation, f: FilterSettings)
    ensures CssAnimationHtml(a, f) == Opening(a, f) + a.html + Closing(a, f)
    ensures Opening(a, f) == "" <==> a.name != "NEURAL_CUBE" && !SpeedWrapped(f)
    ensures Closing(a, f) == "" <==> a.name != "NEURAL_CUBE" && !SpeedWrapped(f)
  {
    var cube := a.name == "NEURAL_CUBE";
    var pre: string := if cube then NeuralCubePrefix() else "";
    var post: string := if cube then NeuralCubeSuffix else "";
    var inner := if cube then NeuralCubePrefix() + a.html + NeuralCubeSuffix else a.html;
    assert inner == pre + a.html + post;
    if SpeedWrapped(f) {
      assert CssAnimationHtml(a, f) == SpeedOpen(f) + inner + "</div>";
      assert Opening(a, f) == SpeedOpen(f) + pre;
      assert Closing(a, f) == post + "</div>";
      Regroup(SpeedOpen(f), pre, a.html, post, "</div>");
    } else {
      assert CssAnimationHtml(a, f) == inner;
      assert Opening(a, f) == "" + pre;
      assert Closing(a, f) == post + "";
      Regroup("", pre, a.html, post, "");
    }
  }

  lemma Regroup(a: string, b: string, c: string, d: string, e: string)
    ensures a + (b + c + d) + e == (a + b) + c + (d + e)
    ensures a + b == "" <==> a == "" && b == ""
  {
  }

  /** The wrapper's multiplier is the reciprocal of the speed, printed as the speed table prints it. */
  lemma SpeedWrapperMultiplier(a: Animation, f: FilterSettings)
    requires a.category != Westworld && a.name != "NEURAL_CUBE" && !f.isPaused && f.speed != Normal
    ensures ModifiedHtml(a, f) == SpeedOpen(f) + a.html + "</div>"
    ensures SpeedOpen(f) == "<div style=\"--speed-multiplier: " + SpeedText(Reciprocal(f.speed)) + ";\">"
    ensures SpeedValue(Reciprocal(f.speed)) * SpeedValue(f.speed) == 1.0
  {
  }

  // ------------------------------------------------------------ frame clock

  /** What became of one browser frame in the injected `requestAnimationFrame`. */
  datatype FrameOutcome = Dropped | Deferred | Delivered(time: real)

  /**
    The rule as written: one variable `lastTime` is compared with real frame
    times and also holds the scaled time handed to the animation. While it is
    0 (its start value) `lastTime || ts` is `ts`, so the gap is 0.
   */
  function AsWrittenNext(lastTime: real, ts: real, speed: real): real {
    if lastTime > 0.0 && ts - lastTime > 200.0 then lastTime + 16.0 * speed
    else lastTime + (ts - (if lastTime != 0.0 then lastTime else ts)) * speed
  }

  /** The times the animation receives from consecutive frames under the rule as written. */
  function AsWrittenRun(lastTime: real, frames: seq<real>, speed: real): seq<real>
    decreases |frames|
  {
    if frames == [] then []
    else
      var t := AsWrittenNext(lastTime, frames[0], speed);
      [t] + AsWrittenRun(t, frames[1..], speed)
  }

  /** From its start value the clock as written never moves: every frame hands the animation time 0. */
  lemma {:induction false} AsWrittenClockFrozen(frames: seq<real>, speed: real)
    decreases |frames|
    ensures |AsWrittenRun(0.0, frames, speed)| == |frames|
    ensures forall i :: 0 <= i < |frames| ==> AsWrittenRun(0.0, frames, speed)[i] == 0.0
  {
    if frames != [] {
      assert AsWrittenNext(0.0, frames[0], speed) == 0.0;
      AsWrittenClockFrozen(frames[1..], speed);
    }
  }

  /** Two frames 16 ms apart at normal speed: the animation sees 0 twice instead of 16 then 32. */
  lemma AsWrittenClockCounterexample()
    ensures AsWrittenRun(0.0, [16.0, 32.0], 1.0) == [0.0, 0.0]
    ensures ScaledRun(ClockStart, [16.0, 32.0], 1.0) == [16.0, 32.0]
  {
    AsWrittenClockFrozen([16.0, 32.0], 1.0);
  }

  /** The injected clock as written, one instance per fullscreen canvas. */
  class AsWrittenClock {
    var lastTime: real
    var stopped: bool
    var paused: bool
    var speed: Speed

    constructor (paused: bool, speed: Speed)
      ensures lastTime == 0.0 && !stopped && this.paused == paused && this.speed == speed
    {
      lastTime := 0.0;
      stopped := false;
      this.paused := paused;
      this.speed := speed;
    }

    /** One browser frame for a pending callback. */
    method OnFrame(ts: real) returns (outcome: FrameOutcome)
      modifies this
      ensures stopped == old(stopped) && paused == old(paused) && speed == old(speed)
      ensures stopped ==> outcome == Dropped && lastTime == old(lastTime)
      ensures !stopped && paused ==> outcome == Deferred && lastTime == old(lastTime)
      ensures !stopped && !paused ==>
        lastTime == AsWrittenNext(old(lastTime), ts, SpeedValue(speed)) && outcome == Delivered(lastTime)
    {
      if stopped {
        return Dropped;
      }
      if paused {
        return Deferred;
      }
      var s := SpeedValue(speed);
      if lastTime > 0.0 && ts - lastTime > 200.0 {
        outcome := Delivered(lastTime + 16.0 * s);
        lastTime := lastTime + 16.0 * s;
      } else {
        var adjusted := lastTime + (ts - (if lastTime != 0.0 then lastTime else ts)) * s;
        outcome := Delivered(adjusted);
        lastTime := adjusted;
      }
    }
  }

  /**
    The evidently intended clock: the last real frame time and the scaled
    time are kept apart. The first frame starts the scaled time at its own
    time; afterwards a gap over 200 ms advances it by one 16-ms step times the
    speed, and any other gap advances it by the gap times the speed.
   */
  datatype ClockState = ClockState(lastReal: real, scaled: real)

  const ClockStart := ClockState(0.0, 0.0)

  function ScaledNext(c: ClockState, ts: real, speed: real): (n: ClockState)
    ensures n.lastReal == ts
  {
    if c.lastReal > 0.0 && ts - c.lastReal > 200.0 then ClockState(ts, c.scaled + 16.0 * speed)
    else if c.lastReal > 0.0 then ClockState(ts, c.scaled + (ts - c.lastReal) * speed)
    else ClockState(ts, ts)
  }

  /** Once running, one frame advances the scaled time by the clamped gap times the speed: never backwards, never more than 200 ms' worth. */
  lemma ScaledStepBounded(c: ClockState, ts: real, sp: Speed)
    requires c.lastReal > 0.0 && ts >= c.lastReal
    ensures c.scaled <= ScaledNext(c, ts, SpeedValue(sp)).scaled <= c.scaled + 200.0 * SpeedValue(sp)
    ensures ts - c.lastReal > 200.0 ==> ScaledNext(c, ts, SpeedValue(sp)).scaled - c.scaled == 16.0 * SpeedValue(sp)
    ensures ts - c.lastReal <= 200.0 ==> ScaledNext(c, ts, SpeedValue(sp)).scaled - c.scaled == (ts - c.lastReal) * SpeedValue(sp)
  {
    match sp
    case Quarter =>
    case Half =>
    case Normal =>
    case Double =>
    case Quadruple =>
  }

  function ScaledRun(c: ClockState, frames: seq<real>, speed: real): (out: seq<real>)
    ensures |out| == |frames|
    decreases |frames|
  {
    if frames == [] then []
    else
      var n := ScaledNext(c, frames[0], speed);
      [n.scaled] + ScaledRun(n, frames[1..], speed)
  }

  /** Frames no more than 200 ms apart: the animation sees real elapsed time scaled by the speed. */
  lemma {:induction false} ScaledRunFollowsRealTime(c: ClockState, frames: seq<real>, speed: real)
    requires c.lastReal > 0.0
    requires forall i :: 0 <= i < |frames| ==> frames[i] > 0.0
    requires |frames| > 0 ==> frames[0] - c.lastReal <= 200.0
    requires forall i :: 0 < i < |frames| ==> frames[i] - frames[i - 1] <= 200.0
    ensures forall i :: 0 <= i < |frames| ==> ScaledRun(c, frames, speed)[i] == c.scaled + (frames[i] - c.lastReal) * speed
    decreases |frames|
  {
    if frames != [] {
      var n := ScaledNext(c, frames[0], speed);
      var rest := frames[1..];
      ScaledRunFollowsRealTime(n, rest, speed);
      ScaledRunShift(c, frames, speed);
      forall i | 0 <= i < |frames|
        ensures ScaledRun(c, frames, speed)[i] == c.scaled + (frames[i] - c.lastReal) * speed
      {
        if i > 0 {
          assert rest[i - 1] == frames[i];
          FollowsAt(c, frames[0], frames[i], speed, ScaledRun(c, frames, speed)[i]);
        }
      }
    }
  }

  /** A value `v` the clock after frame `f0` puts at `t` is the one the clock before it puts there. */
  lemma FollowsAt(c: ClockState, f0: real, t: real, speed: real, v: real)
    requires c.lastReal > 0.0 && f0 - c.lastReal <= 200.0
    requires v == ScaledNext(c, f0, speed).scaled + (t - f0) * speed
    ensures v == c.scaled + (t - c.lastReal) * speed
  {
    ShiftOrigin(c.scaled, c.lastReal, f0, t, speed);
  }

  /** The run from `c` is the first frame's clock value, then the run from the clock after it. */
  lemma ScaledRunShift(c: ClockState, frames: seq<real>, speed: real)
    requires frames != []
    ensures ScaledRun(c, frames, speed)[0] == ScaledNext(c, frames[0], speed).scaled
    ensures forall i :: 0 < i < |frames| ==>
      ScaledRun(c, frames, speed)[i] == ScaledRun(ScaledNext(c, frames[0], speed), frames[1..], speed)[i - 1]
  {
  }

  /** Scaling the gap to an intermediate frame and then the gap beyond it adds up to scaling the whole gap. */
  lemma ShiftOrigin(scaled: real, origin: real, mid: real, t: real, speed: real)
    ensures scaled + (mid - origin) * speed + (t - mid) * speed == scaled + (t - origin) * speed
  {
    Distribute(mid - origin, t - mid, speed);
  }

  lemma Distribute(a: real, b: real, s: real)
    ensures a * s + b * s == (a + b) * s
  {
  }

  /** Frames more than 200 ms apart (a hidden tab, a stall): each advances the animation by one 16-ms step times the speed. */
  lemma {:induction false} ScaledRunClampsStalls(c: ClockState, frames: seq<real>, speed: real)
    requires c.lastReal > 0.0
    requires |frames| > 0 ==> frames[0] - c.lastReal > 200.0
    requires forall i :: 0 < i < |frames| ==> frames[i] - frames[i - 1] > 200.0
    ensures forall i :: 0 <= i < |frames| ==> ScaledRun(c, frames, speed)[i] == c.scaled + (i + 1) as real * 16.0 * speed
    decreases |frames|
  {
    if frames != [] {
      var n := ScaledNext(c, frames[0], speed);
      var rest := frames[1..];
      assert frames[0] > 0.0;
      ScaledRunClampsStalls(n, rest, speed);
      var out := ScaledRun(c, frames, speed);
      forall i | 0 < i < |frames|
        ensures out[i] == c.scaled + (i + 1) as real * 16.0 * speed
      {
        assert out[i] == ScaledRun(n, rest, speed)[i - 1];
        assert n.scaled == c.scaled + 16.0 * speed;
        assert (i - 1 + 1) as real * 16.0 * speed + 16.0 * speed == (i + 1) as real * 16.0 * speed;
      }
    }
  }

  /** The injected clock, corrected; the viewer as written runs `AsWrittenClock`. */
  class FrameClock {
    var state: ClockState
    var stopped: bool
    var paused: bool
    var speed: Speed

    constructor (paused: bool, speed: Speed)
      ensures state == ClockStart && !stopped && this.paused == paused && this.speed == speed
    {
      state := ClockStart;
      stopped := false;
      this.paused := paused;
      this.speed := speed;
    }

    /** One browser frame for a pending callback: dropped once stopped, deferred while paused, else delivered. */
    method OnFrame(ts: real) returns (outcome: FrameOutcome)
      modifies this
      ensures stopped == old(stopped) && paused == old(paused) && speed == old(speed)
      ensures stopped ==> outcome == Dropped && state == old(state)
      ensures !stopped && paused ==> outcome == Deferred && state == old(state)
      ensures !stopped && !paused ==>
        state == ScaledNext(old(state), ts, SpeedValue(speed)) && outcome == Delivered(state.scaled)
    {
      if stopped {
        return Dropped;
      }
      if paused {
        return Deferred;
      }
      var s := SpeedValue(speed);
      if state.lastReal > 0.0 && ts - state.lastReal > 200.0 {
        state := ClockState(ts, state.scaled + 16.0 * s);
      } else if state.lastReal > 0.0 {
        state := ClockState(ts, state.scaled + (ts - state.lastReal) * s);
      } else {
        state := ClockState(ts, ts);
      }
      outcome := Delivered(state.scaled);
    }

    /** The settings effect: the pause flag and speed follow the panel. */
    method SetControls(f: FilterSettings)
      modifies this
      ensures paused == f.isPaused && speed == f.speed
      ensures state == old(state) && stopped == old(stopped)
    {
      paused := f.isPaused;
      speed := f.speed;
    }

    /** Closing the viewer sets the stop flag; no later frame reaches the animation. */
    method Stop()
      modifies this
      ensures stopped && state == old(state) && paused == old(paused) && speed == old(speed)
    {
      stopped := true;
    }
  }
}
