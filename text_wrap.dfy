/** `draw_text_wrapper`: greedy word wrapping of one text layer, and drawing
    the wrapped lines centred, one below the other.

    The wrap loop is modelled on word groups: `Progress.done` holds the groups
    already emitted to `lines` (each line is `' '.join` of its group) and
    `Progress.current` is `current_line`. `Scan` is the loop as a left fold,
    `Groups` adds the final flush of `current_line`, and `WrapLines` is the
    loop itself, proved to compute `Wrap`. */
module TextWrap {
  import opened Words
  import opened Drawing

  /** The image width `draw_text_wrapper` centres every line in. */
  const CentreWidth: int := 720

  /** The measured width of `line` is within `maxWidth`. */
  predicate Fits(measure: string -> nat, maxWidth: int, line: string)
  {
    measure(line) <= maxWidth
  }

  /** The state of the wrap loop after some words. */
  datatype Progress = Progress(done: seq<seq<string>>, current: seq<string>)

  /** One iteration of the wrap loop on `word`. */
  function Step(p: Progress, word: string, measure: string -> nat, maxWidth: int): Progress
  {
    if Fits(measure, maxWidth, Join(p.current + [word])) then Progress(p.done, p.current + [word])
    else if p.current != [] then Progress(p.done + [p.current], [word])
    else Progress(p.done + [[word]], [])
  }

  /** The wrap loop run over all of `words`, from empty `lines` and `current_line`. */
  function Scan(words: seq<string>, measure: string -> nat, maxWidth: int): Progress
    decreases |words|
  {
    if |words| == 0 then Progress([], [])
    else Step(Scan(words[..|words| - 1], measure, maxWidth), words[|words| - 1], measure, maxWidth)
  }

  /** The flush after the loop: a non-empty `current_line` becomes the last line. */
  function Close(p: Progress): seq<seq<string>>
  {
    if p.current != [] then p.done + [p.current] else p.done
  }

  /** The word groups the greedy wrap puts on the lines. */
  function Groups(words: seq<string>, measure: string -> nat, maxWidth: int): seq<seq<string>>
  {
    Close(Scan(words, measure, maxWidth))
  }

  /** The lines `draw_text_wrapper` draws for `text`: none for an empty text,
      the whole text for a text without a space, else the greedy lines. */
  function Wrap(text: string, measure: string -> nat, maxWidth: int): seq<string>
  {
    if text == "" then []
    else if ' ' in text then JoinEach(Groups(Split(text), measure, maxWidth))
    else [text]
  }

  /** A non-empty group every prefix of which with two words or more fits:
      words were only added to `current_line` when the result fit, except the
      first word of a line opened by an overflow. */
  predicate Grown(g: seq<string>, measure: string -> nat, maxWidth: int)
  {
    |g| >= 1 && forall k :: 2 <= k <= |g| ==> Fits(measure, maxWidth, Join(g[..k]))
  }

  /** A single word too wide on its own, emitted alone. */
  predicate LoneOverflow(g: seq<string>, measure: string -> nat, maxWidth: int)
  {
    |g| == 1 && !Fits(measure, maxWidth, g[0])
  }

  /** Line `g` was closed before line `next` only because the first word of
      `next` did not fit on it, or because `g` is a lone over-wide word. */
  predicate Closed(g: seq<string>, next: seq<string>, measure: string -> nat, maxWidth: int)
  {
    |next| >= 1 && (LoneOverflow(g, measure, maxWidth) || !Fits(measure, maxWidth, Join(g + [next[0]])))
  }

  /** What the wrap loop keeps true after consuming `consumed`. */
  ghost predicate ScanInv(p: Progress, consumed: seq<string>, measure: string -> nat, maxWidth: int)
  {
    && (forall g :: g in p.done ==> Grown(g, measure, maxWidth))
    && (p.current == [] || Grown(p.current, measure, maxWidth))
    && Flatten(p.done) + p.current == consumed
    && (forall i :: 0 <= i < |p.done| - 1 ==> Closed(p.done[i], p.done[i + 1], measure, maxWidth))
    && (|p.done| > 0 && p.current == [] ==> LoneOverflow(p.done[|p.done| - 1], measure, maxWidth))
    && (|p.done| > 0 && p.current != [] ==> Closed(p.done[|p.done| - 1], p.current, measure, maxWidth))
  }

  lemma GrownExtend(g: seq<string>, word: string, measure: string -> nat, maxWidth: int)
    requires g == [] || Grown(g, measure, maxWidth)
    requires Fits(measure, maxWidth, Join(g + [word]))
    ensures Grown(g + [word], measure, maxWidth)
  {
    forall k | 2 <= k <= |g + [word]|
      ensures Fits(measure, maxWidth, Join((g + [word])[..k]))
    {
      if k == |g| + 1 {
        assert (g + [word])[..k] == g + [word];
      } else {
        assert (g + [word])[..k] == g[..k];
      }
    }
  }

  /** One loop iteration keeps the loop invariant. */
  lemma StepKeepsInv(p: Progress, consumed: seq<string>, word: string, measure: string -> nat, maxWidth: int)
    requires ScanInv(p, consumed, measure, maxWidth)
    ensures ScanInv(Step(p, word, measure, maxWidth), consumed + [word], measure, maxWidth)
  {
    if Fits(measure, maxWidth, Join(p.current + [word])) {
      AppendKeepsInv(p, consumed, word, measure, maxWidth);
    } else if p.current != [] {
      OverflowKeepsInv(p, consumed, word, measure, maxWidth);
    } else {
      LoneOverflowKeepsInv(p, consumed, word, measure, maxWidth);
    }
  }

  /** The word fits on `current_line` and is appended to it. */
  lemma AppendKeepsInv(p: Progress, consumed: seq<string>, word: string, measure: string -> nat, maxWidth: int)
    requires ScanInv(p, consumed, measure, maxWidth)
    requires Fits(measure, maxWidth, Join(p.current + [word]))
    ensures ScanInv(Progress(p.done, p.current + [word]), consumed + [word], measure, maxWidth)
  {
    GrownExtend(p.current, word, measure, maxWidth);
    assert Flatten(p.done) + (p.current + [word]) == consumed + [word];
    if p.current != [] {
      assert (p.current + [word])[0] == p.current[0];
    }
  }

  /** The word overflows a non-empty `current_line`, which becomes a line; the
      word opens the next one. */
  lemma OverflowKeepsInv(p: Progress, consumed: seq<string>, word: string, measure: string -> nat, maxWidth: int)
    requires ScanInv(p, consumed, measure, maxWidth)
    requires !Fits(measure, maxWidth, Join(p.current + [word])) && p.current != []
    ensures ScanInv(Progress(p.done + [p.current], [word]), consumed + [word], measure, maxWidth)
  {
    var done := p.done + [p.current];
    FlattenAppend(p.done, p.current);
    assert Flatten(done) + [word] == consumed + [word];
    forall g | g in done
      ensures Grown(g, measure, maxWidth)
    {
      if g != p.current {
        assert g in p.done;
      }
    }
    forall i | 0 <= i < |done| - 1
      ensures Closed(done[i], done[i + 1], measure, maxWidth)
    {
      if i == |p.done| - 1 {
        assert done[i] == p.done[|p.done| - 1] && done[i + 1] == p.current;
      } else {
        assert done[i] == p.done[i] && done[i + 1] == p.done[i + 1];
      }
    }
    assert done[|done| - 1] == p.current;
    assert Closed(p.current, [word], measure, maxWidth);
  }

  /** The word does not fit alone on an empty `current_line`: it becomes a
      line of its own. */
  lemma LoneOverflowKeepsInv(p: Progress, consumed: seq<string>, word: string, measure: string -> nat, maxWidth: int)
    requires ScanInv(p, consumed, measure, maxWidth)
    requires !Fits(measure, maxWidth, Join(p.current + [word])) && p.current == []
    ensures ScanInv(Progress(p.done + [[word]], []), consumed + [word], measure, maxWidth)
  {
    var done := p.done + [[word]];
    FlattenAppend(p.done, [word]);
    assert Flatten(done) + [] == consumed + [word];
    assert p.current + [word] == [word];
    assert Join([word]) == word;
    forall g | g in done
      ensures Grown(g, measure, maxWidth)
    {
      if g != [word] {
        assert g in p.done;
      }
    }
    forall i | 0 <= i < |done| - 1
      ensures Closed(done[i], done[i + 1], measure, maxWidth)
    {
      if i == |p.done| - 1 {
        assert done[i] == p.done[|p.done| - 1] && done[i + 1] == [word];
      } else {
        assert done[i] == p.done[i] && done[i + 1] == p.done[i + 1];
      }
    }
    assert done[|done| - 1] == [word];
  }

  lemma {:induction false} ScanKeepsInv(words: seq<string>, measure: string -> nat, maxWidth: int)
    ensures ScanInv(Scan(words, measure, maxWidth), words, measure, maxWidth)
    decreases |words|
  {
    if |words| > 0 {
      var n := |words| - 1;
      assert words[..n] + [words[n]] == words;
      ScanKeepsInv(words[..n], measure, maxWidth);
      StepKeepsInv(Scan(words[..n], measure, maxWidth), words[..n], words[n], measure, maxWidth);
    }
  }

  /** The greedy wrap loses, duplicates and reorders no word; every line is a
      non-empty run of consecutive words each of whose prefixes of two words
      or more fits; and every line but the last was closed only because the
      next word did not fit on it, or because it is a lone word too wide on
      its own. */
  lemma GroupsAreGreedy(words: seq<string>, measure: string -> nat, maxWidth: int)
    ensures forall g :: g in Groups(words, measure, maxWidth) ==> Grown(g, measure, maxWidth)
    ensures Flatten(Groups(words, measure, maxWidth)) == words
    ensures forall i :: 0 <= i < |Groups(words, measure, maxWidth)| - 1 ==>
      Closed(Groups(words, measure, maxWidth)[i], Groups(words, measure, maxWidth)[i + 1], measure, maxWidth)
  {
    var p := Scan(words, measure, maxWidth);
    ScanKeepsInv(words, measure, maxWidth);
    var gs := Groups(words, measure, maxWidth);
    if p.current != [] {
      FlattenAppend(p.done, p.current);
      forall i | 0 <= i < |gs| - 1
        ensures Closed(gs[i], gs[i + 1], measure, maxWidth)
      {
        if i < |p.done| - 1 {
          assert gs[i] == p.done[i] && gs[i + 1] == p.done[i + 1];
        }
      }
    } else {
      assert Flatten(p.done) + [] == Flatten(p.done);
    }
  }

  /** Every word of a group of `groups` is among the words of `Flatten(groups)`. */
  lemma {:induction false} InFlatten(groups: seq<seq<string>>, i: nat, w: string)
    requires i < |groups| && w in groups[i]
    ensures w in Flatten(groups)
    decreases |groups|
  {
    var n := |groups| - 1;
    if i < n {
      InFlatten(groups[..n], i, w);
    }
  }

  /** Wrapping then joining the lines with spaces gives back the text. */
  lemma WrapRoundTrip(text: string, measure: string -> nat, maxWidth: int)
    ensures Join(Wrap(text, measure, maxWidth)) == text
  {
    if text != "" && ' ' in text {
      var words := Split(text);
      GroupsAreGreedy(words, measure, maxWidth);
      JoinFlatten(Groups(words, measure, maxWidth));
      JoinSplit(text);
    }
  }

  /** Re-wrapping the rejoined lines gives the same lines. */
  lemma WrapIdempotent(text: string, measure: string -> nat, maxWidth: int)
    ensures Wrap(Join(Wrap(text, measure, maxWidth)), measure, maxWidth) == Wrap(text, measure, maxWidth)
  {
    WrapRoundTrip(text, measure, maxWidth);
  }

  /** Every line fits, or holds no space: it is a single word. */
  lemma WrapLinesFitOrOneWord(text: string, measure: string -> nat, maxWidth: int)
    ensures forall line :: line in Wrap(text, measure, maxWidth) ==> Fits(measure, maxWidth, line) || ' ' !in line
  {
    if text != "" && ' ' in text {
      var words := Split(text);
      var gs := Groups(words, measure, maxWidth);
      GroupsAreGreedy(words, measure, maxWidth);
      forall line | line in Wrap(text, measure, maxWidth)
        ensures Fits(measure, maxWidth, line) || ' ' !in line
      {
        var i :| 0 <= i < |gs| && line == Join(gs[i]);
        assert gs[i] in gs;
        if |gs[i]| == 1 {
          InFlatten(gs, i, gs[i][0]);
        }
        GroupLineFitsOrOneWord(gs[i], measure, maxWidth);
      }
    }
  }

  /** The line of one greedy group fits, or the group is one space-free word. */
  lemma GroupLineFitsOrOneWord(g: seq<string>, measure: string -> nat, maxWidth: int)
    requires Grown(g, measure, maxWidth)
    requires |g| == 1 ==> ' ' !in g[0]
    ensures Fits(measure, maxWidth, Join(g)) || ' ' !in Join(g)
  {
    if |g| != 1 {
      assert g[..|g|] == g;
    }
  }

  /** An empty text gives no line and only an empty text does; a non-empty
      text without a space is one line holding all of it, whatever its width. */
  lemma WrapDegenerate(text: string, measure: string -> nat, maxWidth: int)
    ensures Wrap(text, measure, maxWidth) == [] <==> text == ""
    ensures text != "" && ' ' !in text ==> Wrap(text, measure, maxWidth) == [text]
  {
    if text != "" && ' ' in text {
      GroupsAreGreedy(Split(text), measure, maxWidth);
    }
  }

  /** The wrapping half of `draw_text_wrapper`: the greedy loop over the
      space-separated words, or the whole text as one line when it has no space. */
  method WrapLines(text: string, measure: string -> nat, maxWidth: int) returns (lines: seq<string>)
    ensures lines == Wrap(text, measure, maxWidth)
  {
    if text == "" {
      return [];
    }
    if ' ' in text {
      var words := Split(text);
      var current: seq<string> := [];
      ghost var done: seq<seq<string>> := [];
      lines := [];
      for i := 0 to |words|
        invariant Progress(done, current) == Scan(words[..i], measure, maxWidth)
        invariant lines == JoinEach(done)
      {
        var word := words[i];
        var testLine := Join(current + [word]);
        var w := measure(testLine);
        if w <= maxWidth {
          current := current + [word];
        } else if current != [] {
          lines := lines + [Join(current)];
          done := done + [current];
          current := [word];
        } else {
          lines := lines + [word];
          done := done + [[word]];
          current := [];
        }
        assert words[..i + 1][..i] == words[..i];
      }
      assert words[..|words|] == words;
      if current != [] {
        lines := lines + [Join(current)];
        done := done + [current];
      }
    } else {
      lines := [text];
    }
  }

  /** The x at which a line of measured width `width` is drawn. */
  function Centre(width: nat): real
  {
    (CentreWidth - width) as real / 2.0
  }

  /** The draws of `lines`, the first at `y`, each next one `font.size + spacing` lower. */
  function Placed(lines: seq<string>, font: Font, y: int, color: string, spacing: int): seq<TextDraw>
    decreases |lines|
  {
    if lines == [] then []
    else [TextDraw(Centre(font.measure(lines[0])), y, lines[0], font.size, color)]
         + Placed(lines[1..], font, y + font.size + spacing, color, spacing)
  }

  /** Line `i` is drawn with its own text, `i` line steps below the start, in
      the layer's font size and colour, and centred on the 720-pixel width. */
  lemma {:induction false} PlacedLayout(lines: seq<string>, font: Font, y: int, color: string, spacing: int)
    ensures |Placed(lines, font, y, color, spacing)| == |lines|
    ensures forall i :: 0 <= i < |lines| ==>
      && Placed(lines, font, y, color, spacing)[i].text == lines[i]
      && Placed(lines, font, y, color, spacing)[i].y == y + i * (font.size + spacing)
      && Placed(lines, font, y, color, spacing)[i].size == font.size
      && Placed(lines, font, y, color, spacing)[i].color == color
      && 2.0 * Placed(lines, font, y, color, spacing)[i].x + font.measure(lines[i]) as real == CentreWidth as real
    decreases |lines|
  {
    if lines != [] {
      var step := font.size + spacing;
      var ds := Placed(lines, font, y, color, spacing);
      var rest := Placed(lines[1..], font, y + step, color, spacing);
      PlacedLayout(lines[1..], font, y + step, color, spacing);
      forall i | 1 <= i < |lines|
        ensures ds[i].y == y + i * step
      {
        assert ds[i] == rest[i - 1];
        assert y + step + (i - 1) * step == y + i * step;
      }
    }
  }

  /** `draw_text_wrapper`: wraps the text, draws the lines centred one below
      the other from `startY`, and returns the cursor below the last line. */
  method DrawTextWrapper(draw: Canvas, text: string, font: Font, maxWidth: int, startY: int, color: string, lineSpacing: int)
    returns (y: int)
    modifies draw
    ensures draw.drawn == old(draw.drawn) + Placed(Wrap(text, font.measure, maxWidth), font, startY, color, lineSpacing)
    ensures y == startY + |Wrap(text, font.measure, maxWidth)| * (font.size + lineSpacing)
  {
    if text == "" {
      return startY;
    }
    var lines := WrapLines(text, font.measure, maxWidth);
    y := DrawLines(draw, lines, font, startY, color, lineSpacing);
  }

  /** The drawing loop of `draw_text_wrapper`: each line centred at the
      cursor, which then moves down by `font.size + line_spacing`. */
  method DrawLines(draw: Canvas, lines: seq<string>, font: Font, startY: int, color: string, lineSpacing: int)
    returns (y: int)
    modifies draw
    ensures draw.drawn == old(draw.drawn) + Placed(lines, font, startY, color, lineSpacing)
    ensures y == startY + |lines| * (font.size + lineSpacing)
  {
    y := startY;
    for i := 0 to |lines|
      invariant draw.drawn + Placed(lines[i..], font, y, color, lineSpacing)
             == old(draw.drawn) + Placed(lines, font, startY, color, lineSpacing)
      invariant y == startY + i * (font.size + lineSpacing)
    {
      var line := lines[i];
      var w := font.measure(line);
      var h := font.size;
      ghost var d := TextDraw(Centre(w), y, line, h, color);
      ghost var rest := Placed(lines[i + 1..], font, y + h + lineSpacing, color, lineSpacing);
      assert lines[i..][1..] == lines[i + 1..];
      assert Placed(lines[i..], font, y, color, lineSpacing) == [d] + rest;
      ghost var before := draw.drawn;
      draw.Text(Centre(w), y, line, font, color);
      assert draw.drawn + rest == before + ([d] + rest);
      y := y + h + lineSpacing;
      assert (i + 1) * (font.size + lineSpacing) == i * (font.size + lineSpacing) + (font.size + lineSpacing);
    }
  }
}
