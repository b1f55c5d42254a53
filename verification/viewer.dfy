/** The interactive slice viewer (`InteractiveViewer`): a current slice index,
    a mask-visibility switch and the last pointer readout, changed by scroll,
    key and pointer-motion events. Drawing is reduced to what it shows: the
    title, which overlay is drawn, and which overlay pixels are transparent. */
module Viewer {
  import opened Failures
  import opened Text

  /** The shapes the viewer reads: the scan's (slices, height, width) and the
      number of dimensions of the mask array. */
  datatype Volume = Volume(slices: nat, height: nat, width: nat, maskDims: nat)

  predicate MaskMultichannel(vol: Volume) { vol.maskDims == 4 }

  /** The text of the readout box: the initial hint, or the values at voxel
      (y, x) of the slice that was shown when the pointer last moved over the
      image. */
  datatype Info = Hint | Readout(slice: int, y: int, x: int)

  datatype State = State(sliceIndex: int, showMask: bool, info: Info)

  /** Pointer coordinates are the integer voxel coordinates under the pointer. */
  datatype Event =
    | Scroll(button: string)
    | KeyPress(key: string)
    | Motion(inAxes: bool, x: int, y: int)

  /** The state invariant: the slice index names a slice of the scan and a
      readout names a voxel of the scan. */
  predicate Valid(vol: Volume, s: State) {
    && 0 <= s.sliceIndex < vol.slices
    && (s.info.Readout? ==>
          0 <= s.info.slice < vol.slices && 0 <= s.info.y < vol.height && 0 <= s.info.x < vol.width)
  }

  /** The constructor's state. It exists only for a scan with at least one
      slice: the constructor's first draw indexes the middle slice, which fails
      on an empty scan and ends the session. */
  function Open(vol: Volume): (r: Option<State>)
    ensures r.Some? <==> vol.slices >= 1
    ensures r.Some? ==> Valid(vol, r.value)
    ensures r.Some? ==> r.value.showMask && r.value.info == Hint
    ensures r.Some? ==> 2 * r.value.sliceIndex <= vol.slices < 2 * r.value.sliceIndex + 2
  {
    if vol.slices == 0 then None else Some(State(vol.slices / 2, true, Hint))
  }

  function Min(a: int, b: int): int { if a <= b then a else b }
  function Max(a: int, b: int): int { if a >= b then a else b }

  function Advance(vol: Volume, s: State): State {
    s.(sliceIndex := Min(s.sliceIndex + 1, vol.slices - 1))
  }

  function Retreat(s: State): State {
    s.(sliceIndex := Max(s.sliceIndex - 1, 0))
  }

  predicate IsAdvanceKey(k: string) { LowerStr(k) == "up" || LowerStr(k) == "k" }
  predicate IsRetreatKey(k: string) { LowerStr(k) == "down" || LowerStr(k) == "j" }
  predicate IsToggleKey(k: string) { LowerStr(k) == "m" }

  /** One event handler. */
  function Step(vol: Volume, s: State, e: Event): State {
    match e
    case Scroll(button) =>
      if button == "up" then Advance(vol, s)
      else if button == "down" then Retreat(s)
      else s
    case KeyPress(key) =>
      if IsToggleKey(key) then s.(showMask := !s.showMask)
      else if IsAdvanceKey(key) then Advance(vol, s)
      else if IsRetreatKey(key) then Retreat(s)
      else s
    case Motion(inAxes, x, y) =>
      if !inAxes then s
      else if 0 <= y < vol.height && 0 <= x < vol.width then s.(info := Readout(s.sliceIndex, y, x))
      else s
  }

  /** The events handled one after another, as the event loop dispatches them. */
  function Run(vol: Volume, s: State, events: seq<Event>): State
    decreases |events|
  {
    if |events| == 0 then s else Run(vol, Step(vol, s, events[0]), events[1..])
  }

  predicate Advances(e: Event) {
    (e.Scroll? && e.button == "up") || (e.KeyPress? && !IsToggleKey(e.key) && IsAdvanceKey(e.key))
  }

  predicate Retreats(e: Event) {
    (e.Scroll? && e.button == "down") || (e.KeyPress? && !IsToggleKey(e.key) && !IsAdvanceKey(e.key) && IsRetreatKey(e.key))
  }

  /** What one event does to the slice index: an advance moves one slice up but
      not past the last, a retreat one down but not below 0, anything else keeps
      it. */
  lemma StepSlice(vol: Volume, s: State, e: Event)
    requires Valid(vol, s)
    ensures Advances(e) ==>
              Step(vol, s, e).sliceIndex == if s.sliceIndex == vol.slices - 1 then s.sliceIndex else s.sliceIndex + 1
    ensures Retreats(e) ==>
              Step(vol, s, e).sliceIndex == if s.sliceIndex == 0 then 0 else s.sliceIndex - 1
    ensures !Advances(e) && !Retreats(e) ==> Step(vol, s, e).sliceIndex == s.sliceIndex
  {
  }

  /** Every event keeps the invariant. */
  lemma StepValid(vol: Volume, s: State, e: Event)
    requires Valid(vol, s)
    ensures Valid(vol, Step(vol, s, e))
  {
  }

  /** Every state the viewer can reach from its initial state is valid. */
  lemma {:induction false} RunValid(vol: Volume, s: State, events: seq<Event>)
    requires Valid(vol, s)
    ensures Valid(vol, Run(vol, s, events))
    decreases |events|
  {
    if |events| > 0 {
      StepValid(vol, s, events[0]);
      RunValid(vol, Step(vol, s, events[0]), events[1..]);
    }
  }

  lemma ReachableValid(vol: Volume, events: seq<Event>)
    requires Open(vol).Some?
    ensures Valid(vol, Run(vol, Open(vol).value, events))
  {
    RunValid(vol, Open(vol).value, events);
  }

  /** `n` advances from slice `i` land on `min(i + n, last)`: repeated advances
      at the last slice change nothing. */
  lemma {:induction false} RepeatedAdvance(vol: Volume, s: State, events: seq<Event>)
    requires Valid(vol, s)
    requires forall i :: 0 <= i < |events| ==> Advances(events[i])
    ensures Run(vol, s, events) == s.(sliceIndex := Min(s.sliceIndex + |events|, vol.slices - 1))
    decreases |events|
  {
    if |events| > 0 {
      StepSlice(vol, s, events[0]);
      var t := Step(vol, s, events[0]);
      assert t == s.(sliceIndex := Min(s.sliceIndex + 1, vol.slices - 1));
      RepeatedAdvance(vol, t, events[1..]);
    }
  }

  /** `n` retreats from slice `i` land on `max(i - n, 0)`. */
  lemma {:induction false} RepeatedRetreat(vol: Volume, s: State, events: seq<Event>)
    requires Valid(vol, s)
    requires forall i :: 0 <= i < |events| ==> Retreats(events[i])
    ensures Run(vol, s, events) == s.(sliceIndex := Max(s.sliceIndex - |events|, 0))
    decreases |events|
  {
    if |events| > 0 {
      StepSlice(vol, s, events[0]);
      var t := Step(vol, s, events[0]);
      assert t == s.(sliceIndex := Max(s.sliceIndex - 1, 0));
      RepeatedRetreat(vol, t, events[1..]);
    }
  }

  /** `m` (in either case) flips only the mask switch; flipping twice restores
      the state. */
  lemma ToggleMask(vol: Volume, s: State, k1: string, k2: string)
    requires IsToggleKey(k1) && IsToggleKey(k2)
    ensures Step(vol, s, KeyPress(k1)) == s.(showMask := !s.showMask)
    ensures Step(vol, Step(vol, s, KeyPress(k1)), KeyPress(k2)) == s
  {
  }

  /** Keys are matched after lower-casing. */
  lemma KeysIgnoreCase(vol: Volume, s: State, k: string)
    ensures Step(vol, s, KeyPress(k)) == Step(vol, s, KeyPress(LowerStr(k)))
  {
    LowerIdempotent(k);
  }

  /** Unrecognised keys and scroll buttons leave the state unchanged. */
  lemma UnrecognisedInputIgnored(vol: Volume, s: State, e: Event)
    requires e.KeyPress? ==> LowerStr(e.key) !in ["m", "up", "k", "down", "j"]
    requires e.Scroll? ==> e.button !in ["up", "down"]
    requires !e.Motion?
    ensures Step(vol, s, e) == s
  {
  }

  /** A pointer movement changes only the readout, and changes it iff the
      pointer is over the image and inside the scan's bounds; the readout then
      names the voxel under the pointer on the current slice. */
  lemma MotionReadout(vol: Volume, s: State, inAxes: bool, x: int, y: int)
    ensures var t := Step(vol, s, Motion(inAxes, x, y));
      t.sliceIndex == s.sliceIndex && t.showMask == s.showMask
    ensures var t := Step(vol, s, Motion(inAxes, x, y));
      (inAxes && 0 <= y < vol.height && 0 <= x < vol.width) ==> t.info == Readout(s.sliceIndex, y, x)
    ensures var t := Step(vol, s, Motion(inAxes, x, y));
      !(inAxes && 0 <= y < vol.height && 0 <= x < vol.width) ==> t == s
  {
  }

  // ---------------------------------------------------------------------------
  // What a redraw shows.

  datatype Overlay = NoOverlay | LabelOverlay | ChannelOverlay

  /** The overlay drawn over the slice: none when the mask is hidden, a
      per-channel colour composite for a 4-dimensional mask, otherwise a
      colour-mapped label overlay. */
  function OverlayOf(vol: Volume, s: State): (o: Overlay)
    ensures o == NoOverlay <==> !s.showMask
    ensures o == ChannelOverlay <==> s.showMask && vol.maskDims == 4
  {
    if !s.showMask then NoOverlay
    else if MaskMultichannel(vol) then ChannelOverlay
    else LabelOverlay
  }

  /** One pixel of the mask slice: a label value, or one value per channel. */
  datatype MaskPixel = Label(value: int) | Channels(values: seq<int>)

  function Sum(cs: seq<int>): int {
    if |cs| == 0 then 0 else cs[0] + Sum(cs[1..])
  }

  /** The overlay is fully transparent at a pixel iff its label is 0, or, for a
      multi-channel mask, iff its channel sum is 0. */
  predicate Transparent(p: MaskPixel) {
    match p
    case Label(v) => v == 0
    case Channels(cs) => Sum(cs) == 0
  }

  /** With non-negative channel values (as segmentation masks hold), a pixel is
      transparent iff every channel is background. */
  lemma {:induction false} TransparentIffBackground(cs: seq<int>)
    requires forall i :: 0 <= i < |cs| ==> cs[i] >= 0
    ensures Transparent(Channels(cs)) <==> forall i :: 0 <= i < |cs| ==> cs[i] == 0
  {
    SumNonNegative(cs);
  }

  lemma {:induction false} SumNonNegative(cs: seq<int>)
    requires forall i :: 0 <= i < |cs| ==> cs[i] >= 0
    ensures Sum(cs) >= 0
    ensures Sum(cs) == 0 <==> forall i :: 0 <= i < |cs| ==> cs[i] == 0
  {
    if |cs| > 0 {
      SumNonNegative(cs[1..]);
      if Sum(cs) == 0 {
        forall i | 0 <= i < |cs| ensures cs[i] == 0 {
          if i > 0 {
            assert cs[i] == cs[1..][i - 1];
          }
        }
      }
    }
  }

  const TitlePrefix := "Kesit: "
  const MaskLabel := " | Maske [M]: "

  function MaskStatus(on: bool): string { if on then "Açık" else "Kapalı" }

  /** The axes title: the one-based slice position, the slice count and the mask
      switch. */
  function Title(vol: Volume, s: State): string
    requires s.sliceIndex >= 0
  {
    TitlePrefix + Decimal(s.sliceIndex + 1) + "/" + Decimal(vol.slices) + MaskLabel + MaskStatus(s.showMask)
  }

  predicate AllDigits(s: string) { forall i :: 0 <= i < |s| ==> '0' <= s[i] <= '9' }

  /** The title reads as "position/total" with the one-based position of the
      current slice, between 1 and the slice count. */
  lemma TitleSpec(vol: Volume, s: State)
    requires Valid(vol, s)
    ensures exists pos, total ::
      && AllDigits(pos) && AllDigits(total)
      && Title(vol, s) == TitlePrefix + pos + "/" + total + MaskLabel + MaskStatus(s.showMask)
      && DecimalValue(pos) == s.sliceIndex + 1
      && DecimalValue(total) == vol.slices
      && 1 <= DecimalValue(pos) <= DecimalValue(total)
  {
    DecimalRoundTrip(s.sliceIndex + 1);
    DecimalRoundTrip(vol.slices);
    var pos, total := Decimal(s.sliceIndex + 1), Decimal(vol.slices);
    assert AllDigits(pos) && AllDigits(total);
    assert DecimalValue(pos) == s.sliceIndex + 1 && DecimalValue(total) == vol.slices;
    assert Title(vol, s) == TitlePrefix + pos + "/" + total + MaskLabel + MaskStatus(s.showMask);
  }
}
