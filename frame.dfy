/** The export step's geometry and `make_frame(t)`: the centre crop of the
    video band, and the subtitle overlay drawn for one frame time. */
module Frame {
  import opened Wrappers
  import opened Drawing
  import opened TextWrap
  import opened Subtitles

  /** The output frame is 720 pixels wide. */
  const W: int := 720
  const Padding: int := 60
  /** Text is wrapped to the frame width less a 60-pixel padding on each side. */
  const MaxTextWidth: int := W - Padding * 2
  /** Height of the video band at the top of the frame. */
  const TargetH: int := 500
  /** Where the stacked subtitle block starts: 50 rows below the video band. */
  const StackTop: int := TargetH + 50
  /** The gap `make_frame` adds to the cursor after each of the first two layers. */
  const LayerGap: int := 15
  /** Line spacing of the Cantonese text layer, then of the Jyutping and English layers. */
  const TextSpacing: int := 15
  const LatinSpacing: int := 10
  const Gold: string := "#FFD700"
  const SkyBlue: string := "#87CEEB"
  const White: string := "#FFFFFF"
  const HintGrey: string := "#555555"
  /** Where the `Next:` hint is drawn. */
  const HintX: real := 50.0
  const HintY: int := 880

  /** The three fonts of the overlay: Cantonese text, Jyutping, English. */
  datatype Fonts = Fonts(cn: Font, jp: Font, en: Font)

  /** What is done to the resized clip: left as it is, or cropped to the band
      of `height` rows starting at row `y1`. */
  datatype VideoBand = Uncropped | Cropped(y1: real, height: int)

  /** The crop in the export step: a clip taller than 500 rows is cropped to
      500 rows, removing as many rows above the band as below it; a shorter
      clip is left untouched; the band is `min(h, 500)` rows high either way. */
  function CropRule(h: nat): (band: VideoBand)
    ensures band.Uncropped? <==> h <= TargetH
    ensures band.Cropped? ==> band.height == TargetH && band.y1 > 0.0
                              && band.y1 == h as real - (band.y1 + band.height as real)
    ensures BandHeight(h, band) == if h < TargetH then h else TargetH
  {
    if h > TargetH then Cropped((h - TargetH) as real / 2.0, TargetH) else Uncropped
  }

  /** Height of the video band a clip of `h` rows shows. */
  function BandHeight(h: nat, band: VideoBand): int
  {
    if band.Cropped? then band.height else h
  }

  /** The cursor `draw_text_wrapper` returns after a layer. */
  function LayerEnd(text: string, font: Font, y: int, spacing: int): int
  {
    y + |Wrap(text, font.measure, MaxTextWidth)| * (font.size + spacing)
  }

  /** Where the Jyutping layer of `e` starts. */
  function JyutpingTop(e: Entry, fonts: Fonts): int
  {
    LayerEnd(e.text, fonts.cn, StackTop, TextSpacing) + LayerGap
  }

  /** Where the English layer of `e` starts. */
  function EnglishTop(e: Entry, fonts: Fonts): int
  {
    LayerEnd(e.jyutping, fonts.jp, JyutpingTop(e, fonts), LatinSpacing) + LayerGap
  }

  /** The cursor after the whole stacked block of `e`. */
  function StackEnd(e: Entry, fonts: Fonts): int
  {
    LayerEnd(e.english, fonts.en, EnglishTop(e, fonts), LatinSpacing)
  }

  /** The draws of the stacked block of `e`: text, then Jyutping, then English. */
  function StackDraws(e: Entry, fonts: Fonts): seq<TextDraw>
  {
    Placed(Wrap(e.text, fonts.cn.measure, MaxTextWidth), fonts.cn, StackTop, Gold, TextSpacing)
    + Placed(Wrap(e.jyutping, fonts.jp.measure, MaxTextWidth), fonts.jp, JyutpingTop(e, fonts), SkyBlue, LatinSpacing)
    + Placed(Wrap(e.english, fonts.en.measure, MaxTextWidth), fonts.en, EnglishTop(e, fonts), White, LatinSpacing)
  }

  /** The `Next:` hint for the upcoming entry, if any. */
  function HintDraws(nxt: Option<Entry>, fonts: Fonts): seq<TextDraw>
  {
    if nxt.Some? then [TextDraw(HintX, HintY, "Next: " + nxt.value.text, fonts.jp.size, HintGrey)] else []
  }

  /** Everything `make_frame(t)` draws on the overlay. */
  function FrameDraws(subs: seq<Entry>, t: real, fonts: Fonts): seq<TextDraw>
  {
    (if Active(subs, t).Some? then StackDraws(Active(subs, t).value, fonts) else [])
    + HintDraws(Upcoming(subs, t), fonts)
  }

  /** Draws that lie one below the other inside the rows `[top, bottom)`:
      every line box ends above the top of every later line. */
  predicate Stacked(ds: seq<TextDraw>, top: int, bottom: int)
  {
    && (forall i :: 0 <= i < |ds| ==> top <= ds[i].y && ds[i].y + ds[i].size < bottom)
    && (forall i, j :: 0 <= i < j < |ds| ==> ds[i].y + ds[i].size < ds[j].y)
  }

  lemma StackedConcat(a: seq<TextDraw>, b: seq<TextDraw>, top: int, mid: int, mid': int, bottom: int)
    requires Stacked(a, top, mid) && Stacked(b, mid', bottom)
    requires top <= mid <= mid' <= bottom
    ensures Stacked(a + b, top, bottom)
  {
    var ab := a + b;
    forall i, j | 0 <= i < j < |ab|
      ensures ab[i].y + ab[i].size < ab[j].y
    {
      if j < |a| {
        assert ab[i] == a[i] && ab[j] == a[j];
      } else if i < |a| {
        assert ab[i] == a[i] && ab[j] == b[j - |a|];
      } else {
        assert ab[i] == b[i - |a|] && ab[j] == b[j - |a|];
      }
    }
    forall i | 0 <= i < |ab|
      ensures top <= ab[i].y && ab[i].y + ab[i].size < bottom
    {
      if i < |a| {
        assert ab[i] == a[i];
      } else {
        assert ab[i] == b[i - |a|];
      }
    }
  }

  /** A layer drawn from `y` with a positive line spacing lies in the rows
      from `y` up to the cursor it returns, its lines not overlapping. */
  lemma {:induction false} PlacedStacked(lines: seq<string>, font: Font, y: int, color: string, spacing: int, bottom: int)
    requires spacing > 0
    requires bottom == y + |lines| * (font.size + spacing)
    ensures y <= bottom
    ensures Stacked(Placed(lines, font, y, color, spacing), y, bottom)
    decreases |lines|
  {
    if lines != [] {
      var step := font.size + spacing;
      var first := [TextDraw(Centre(font.measure(lines[0])), y, lines[0], font.size, color)];
      assert y + step + (|lines| - 1) * step == bottom;
      PlacedStacked(lines[1..], font, y + step, color, spacing, bottom);
      StackedConcat(first, Placed(lines[1..], font, y + step, color, spacing), y, y + step, y + step, bottom);
    }
  }

  /** The stacked block of the shown entry starts at row 550, ends above the
      cursor `StackEnd`, and none of its lines overlaps the next one, across
      the three layers too. */
  lemma StackIsStacked(e: Entry, fonts: Fonts)
    ensures Stacked(StackDraws(e, fonts), StackTop, StackEnd(e, fonts))
  {
    var y2, y3 := JyutpingTop(e, fonts), EnglishTop(e, fonts);
    LayerStacked(e.text, fonts.cn, StackTop, Gold, TextSpacing);
    LayerStacked(e.jyutping, fonts.jp, y2, SkyBlue, LatinSpacing);
    LayerStacked(e.english, fonts.en, y3, White, LatinSpacing);
    ThreeLayers(Placed(Wrap(e.text, fonts.cn.measure, MaxTextWidth), fonts.cn, StackTop, Gold, TextSpacing),
                Placed(Wrap(e.jyutping, fonts.jp.measure, MaxTextWidth), fonts.jp, y2, SkyBlue, LatinSpacing),
                Placed(Wrap(e.english, fonts.en.measure, MaxTextWidth), fonts.en, y3, White, LatinSpacing),
                StackTop, y2 - LayerGap, y2, y3 - LayerGap, y3, StackEnd(e, fonts));
  }

  /** One layer drawn from `y` lies in the rows from `y` up to the cursor
      `draw_text_wrapper` returns. */
  lemma LayerStacked(text: string, font: Font, y: int, color: string, spacing: int)
    requires spacing > 0
    ensures y <= LayerEnd(text, font, y, spacing)
    ensures Stacked(Placed(Wrap(text, font.measure, MaxTextWidth), font, y, color, spacing), y, LayerEnd(text, font, y, spacing))
  {
    PlacedStacked(Wrap(text, font.measure, MaxTextWidth), font, y, color, spacing, LayerEnd(text, font, y, spacing));
  }

  lemma ThreeLayers(p1: seq<TextDraw>, p2: seq<TextDraw>, p3: seq<TextDraw>,
                    top: int, e1: int, y2: int, e2: int, y3: int, e3: int)
    requires top <= e1 <= y2 <= e2 <= y3 <= e3
    requires Stacked(p1, top, e1) && Stacked(p2, y2, e2) && Stacked(p3, y3, e3)
    ensures Stacked(p1 + p2 + p3, top, e3)
  {
    StackedConcat(p1, p2, top, e1, y2, e2);
    StackedConcat(p1 + p2, p3, top, e2, y3, e3);
  }

  /** An empty layer draws nothing and moves the cursor by the 15-row gap
      alone; an entry whose three fields are all empty ends the block at 580. */
  lemma EmptyLayersOnlyAddGaps(e: Entry, fonts: Fonts)
    ensures e.text == "" ==> JyutpingTop(e, fonts) == StackTop + LayerGap
    ensures e.jyutping == "" ==> EnglishTop(e, fonts) == JyutpingTop(e, fonts) + LayerGap
    ensures e.english == "" ==> StackEnd(e, fonts) == EnglishTop(e, fonts)
    ensures e.text != "" ==> JyutpingTop(e, fonts) >= StackTop + fonts.cn.size + TextSpacing + LayerGap
    ensures e.text == "" && e.jyutping == "" && e.english == "" ==> StackEnd(e, fonts) == 580
  {
    LayerEndBounds(e.text, fonts.cn, StackTop, TextSpacing);
    LayerEndBounds(e.jyutping, fonts.jp, JyutpingTop(e, fonts), LatinSpacing);
    LayerEndBounds(e.english, fonts.en, EnglishTop(e, fonts), LatinSpacing);
  }

  /** An empty layer leaves the cursor where it was; a non-empty one moves it
      down by at least one line step. */
  lemma LayerEndBounds(text: string, font: Font, y: int, spacing: int)
    requires spacing >= 0
    ensures text == "" ==> LayerEnd(text, font, y, spacing) == y
    ensures text != "" ==> LayerEnd(text, font, y, spacing) >= y + font.size + spacing
  {
    WrapDegenerate(text, font.measure, MaxTextWidth);
    AtLeastOneStep(|Wrap(text, font.measure, MaxTextWidth)|, font.size + spacing);
  }

  lemma AtLeastOneStep(n: nat, step: nat)
    ensures n >= 1 ==> n * step >= step
  {
    if n >= 1 {
      assert n * step == step + (n - 1) * step;
    }
  }

  /** A time after every entry has ended and started draws nothing at all. */
  lemma FrameAfterTrackIsBlank(subs: seq<Entry>, t: real, fonts: Fonts)
    requires forall i :: 0 <= i < |subs| ==> subs[i].start <= t && subs[i].end < t
    ensures FrameDraws(subs, t, fonts) == []
  {
  }

  /** The stacking part of `make_frame`: the three layers of the shown entry,
      stacked from row 550 with a 15-row gap between layers. */
  method DrawStack(draw: Canvas, cur: Entry, fonts: Fonts) returns (cursorY: int)
    modifies draw
    ensures draw.drawn == old(draw.drawn) + StackDraws(cur, fonts)
    ensures cursorY == StackEnd(cur, fonts)
  {
    ghost var before := draw.drawn;
    ghost var p1 := Placed(Wrap(cur.text, fonts.cn.measure, MaxTextWidth), fonts.cn, StackTop, Gold, TextSpacing);
    ghost var p2 := Placed(Wrap(cur.jyutping, fonts.jp.measure, MaxTextWidth), fonts.jp, JyutpingTop(cur, fonts), SkyBlue, LatinSpacing);
    ghost var p3 := Placed(Wrap(cur.english, fonts.en.measure, MaxTextWidth), fonts.en, EnglishTop(cur, fonts), White, LatinSpacing);
    cursorY := StackTop;
    cursorY := DrawTextWrapper(draw, cur.text, fonts.cn, MaxTextWidth, cursorY, Gold, TextSpacing);
    cursorY := cursorY + LayerGap;
    assert cursorY == JyutpingTop(cur, fonts);
    cursorY := DrawTextWrapper(draw, cur.jyutping, fonts.jp, MaxTextWidth, cursorY, SkyBlue, LatinSpacing);
    cursorY := cursorY + LayerGap;
    assert cursorY == EnglishTop(cur, fonts);
    cursorY := DrawTextWrapper(draw, cur.english, fonts.en, MaxTextWidth, cursorY, White, LatinSpacing);
    AppendAssoc(before, p1, p2, p3);
  }

  /** Regrouping four appended draw lists. */
  lemma AppendAssoc(a: seq<TextDraw>, b: seq<TextDraw>, c: seq<TextDraw>, d: seq<TextDraw>)
    ensures a + b + c + d == a + (b + c + d)
  {
  }

  /** `make_frame(t)`: a fresh transparent overlay holding the stacked block
      of the entry shown at `t`, if any, then the `Next:` hint for the
      upcoming entry, if any. */
  method MakeFrame(subs: seq<Entry>, t: real, fonts: Fonts) returns (img: Canvas)
    ensures fresh(img)
    ensures img.drawn == FrameDraws(subs, t, fonts)
  {
    img := new Canvas();
    var cur := Active(subs, t);
    var nxt := Upcoming(subs, t);
    ghost var block: seq<TextDraw> := if cur.Some? then StackDraws(cur.value, fonts) else [];
    if cur.Some? {
      var cursorY := DrawStack(img, cur.value, fonts);
    }
    assert img.drawn == block;
    if nxt.Some? {
      img.Text(HintX, HintY, "Next: " + nxt.value.text, fonts.jp, HintGrey);
    }
    assert img.drawn == block + HintDraws(nxt, fonts);
  }
}
