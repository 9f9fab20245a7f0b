# Cantonese subtitle layout and lookup, modelled in Dafny

This project models the subtitle logic of the Cantonese video workshop
(`cantonese_app.py`). That logic turns a table of timed subtitle rows
(Cantonese text, its Jyutping, its English translation) into the text drawn
on each frame of the exported video. It is the only algorithmic part of the
script. The model covers:

- `draw_text_wrapper`: greedy wrapping of one text layer on spaces into
  lines that fit in `max_width` measured pixels unless they hold a single
  word (a word too wide on its own, or a text without any space, is still
  one line of whatever width), then drawing each line
  centred on the 720-pixel frame while a vertical cursor moves down by
  `font.size + line_spacing` per line (`TextWrap`). Text width
  (`draw.textlength`) is an abstract function from string to `nat`, carried
  in the `Font` value with the font size (`Drawing.Font`).
- The two lookups in `make_frame(t)`: `cur`, the first row in table order
  whose `[start, end]` contains `t`, and `nxt`, the first row in table order
  that starts after `t` (`Subtitles`).
- The stacking of the three layers of `cur`: text (spacing 15), Jyutping
  (spacing 10) and English (spacing 10), from row 550, with a 15-row gap
  after each of the first two. Then the `Next:` hint, and the whole overlay
  of one frame (`Frame`).
- The centre crop of the resized clip to a 500-row band (`Frame.CropRule`).
- The Jyutping column: each character's reading (or the character itself
  when it has none) joined with single spaces (`Jyutping`).
- Python's `str.split(' ')` and `' '.join`, which the wrap and the Jyutping
  column use (`Words`).

PIL's `ImageDraw` is modelled as a `Canvas` object. Its `drawn` field lists
every `draw.text` call made on it. `draw_text_wrapper` and the stacking
code are methods that change it, proved against the pure functions `Wrap`,
`Placed` and `StackDraws`, about which the lemmas are stated. The wrap loop
itself is the method `WrapLines`, proved to compute `Wrap`. The drawing loop
that follows it is the method `DrawLines`, proved to append `Placed`.
`DrawTextWrapper` runs the two in turn. `Wrap` is
defined by a left fold (`Scan`) of the loop body (`Step`) over the words.

Behaviour of the code worth knowing:
- Text that contains no space (Cantonese text normally has none) is drawn as
  one line, however wide. There is no per-character wrapping and no check
  for CJK characters.
- An empty layer still gets the 15-row gap after it. Only the layer's own
  lines are missing.
- Nothing requires `start <= end` or the rows to be sorted. The lookups are
  first-match scans whatever the times are.

## Model

| member | source | states |
|---|---|---|
| Words.Split | cantonese_app.py:58 | `text.split(' ')` gives at least one word, and no word contains a space |
| Words.Join | cantonese_app.py:61-68 | `' '.join(words)` is empty for no words, and otherwise holds the words' characters plus exactly one separator between each two neighbours (its length); `JoinEnds`, `JoinSplit`, `SplitJoin` and `WrapRoundTrip` are stated about it |
| Words.JoinEnds | cantonese_app.py:61-68 | a join of one or more words starts with the first word and ends with the last |
| Words.JoinSplit | cantonese_app.py:58-68 | joining the words of `text.split(' ')` with single spaces gives back the text, empty words included |
| Words.SplitJoin | cantonese_app.py:113 | splitting a space-join of one or more space-free tokens gives back exactly those tokens |
| TextWrap.GroupsAreGreedy | cantonese_app.py:58-68 | the lines are non-empty runs of consecutive words whose concatenation is the word list (nothing lost, duplicated or reordered); in every line, each prefix of two or more words fits in `max_width`; every line but the last was closed only because adding the next word overflowed it, or because it is a single word too wide on its own. These three facts fix the grouping only for widths that grow as words are added; that a line opened on an empty `current_line` starts with a word that fits alone (or is that lone word) is not stated here, and `WrapLines` computing `Wrap` pins the exact behaviour |
| TextWrap.WrapLinesFitOrOneWord | cantonese_app.py:60-69 | every drawn line either fits in `max_width` or contains no space, i.e. is a single word (or the whole space-free text) |
| TextWrap.WrapRoundTrip | cantonese_app.py:56-69 | joining the drawn lines with single spaces gives back the original text |
| TextWrap.WrapIdempotent | cantonese_app.py:56-69 | re-wrapping the rejoined lines with the same font and width gives the same lines |
| TextWrap.WrapDegenerate | cantonese_app.py:55-69 | the text produces no lines exactly when it is empty; non-empty text without a space is exactly one line holding the whole text, whatever `max_width` is |
| TextWrap.WrapLines | cantonese_app.py:56-69 | the wrap loop over `text.split(' ')` with its `lines`/`current_line` updates computes exactly the lines of `Wrap` |
| TextWrap.PlacedLayout | cantonese_app.py:71-77 | line `i` is drawn with its own text at `y = start_y + i * (font.size + line_spacing)`, in the layer's size and colour, at `x = (720 - w) / 2`, so that `2x + w = 720` (centred) |
| TextWrap.DrawLines | cantonese_app.py:71-77 | the drawing loop appends, for each line in order, one draw centred at the cursor, and returns the cursor moved down by one `font.size + line_spacing` step per line |
| TextWrap.DrawTextWrapper | cantonese_app.py:54-77 | appends the draws of the wrapped lines to the canvas and returns `start_y + (number of lines) * (font.size + line_spacing)`; empty text draws nothing and returns `start_y` |
| Drawing.Canvas.constructor | cantonese_app.py:197-198 | a new overlay has nothing drawn on it |
| Drawing.Canvas.Text | cantonese_app.py:75 | `draw.text` appends one draw with its position, text, font size and colour, and changes nothing else |
| Subtitles.Active | cantonese_app.py:199 | `cur` is none exactly when no row has `start <= t <= end`; otherwise it is the row at the smallest such index, so among overlapping rows the earlier one in table order wins |
| Subtitles.Upcoming | cantonese_app.py:200 | `nxt` is none exactly when `t` is at or after every row's start; otherwise it is the row at the smallest index with `start > t`, independent of `cur` |
| Subtitles.SequentialLookup | cantonese_app.py:199-200 | on a table of rows in time order that do not overlap, any `t` inside row `k` shows row `k`, and the hint is row `k + 1` (none after the last row) |
| Subtitles.ContiguousLookup | cantonese_app.py:199-200 | on a table of rows in time order where a row may end exactly when the next starts, any `t` strictly inside row `k` shows row `k`, and the hint is row `k + 1` (none after the last row) |
| Subtitles.ContiguousBoundary | cantonese_app.py:199-200 | on such a table, at the instant a row of non-zero length ends and the next one starts, the earlier row is still shown, and the hint skips the row that starts at that instant: it is the first later row that starts after it |
| Subtitles.ContiguousOutside | cantonese_app.py:199 | on such a table (so also on a strictly separated one), a time before the first start or after the last end shows no row |
| Jyutping.JyutpingLine | cantonese_app.py:113 | the Jyutping string of a row is empty when the converter gives no pair, otherwise it starts with the first pair's token and ends with the last's, each token being the reading when present and non-empty, else the character; `JyutpingLineTokens` states that it splits back token by token |
| Jyutping.JyutpingLineTokens | cantonese_app.py:113 | when the text is non-empty and no character or reading used as a token contains a space, the Jyutping string holds one space-separated token per character, in order: the reading when it is present and non-empty, otherwise the character itself |
| Frame.CropRule | cantonese_app.py:192-194 | a clip taller than 500 rows is cropped to 500 rows starting at `(h - 500) / 2`, so as many rows are removed above the band as below it; a clip of at most 500 rows is left untouched; the band is `min(h, 500)` rows high either way |
| Frame.StackIsStacked | cantonese_app.py:208-214 | the stacked block (text, then Jyutping, then English) lies between row 550 and the final cursor, and every line box ends above the top of every later line, across the layers too |
| Frame.EmptyLayersOnlyAddGaps | cantonese_app.py:208-214 | an empty layer draws nothing and moves the cursor by the 15-row gap alone (so an entry with three empty fields ends the block at 580); a non-empty text layer pushes the Jyutping layer at least one line step plus the gap below row 550 |
| Frame.DrawStack | cantonese_app.py:208-214 | draws the three layers of `cur` from row 550 with 15-row gaps between them, and leaves the cursor at the end of the English layer |
| Frame.FrameAfterTrackIsBlank | cantonese_app.py:196-217 | at a time after every row has started and ended, the overlay has no subtitle text and no hint |
| Frame.MakeFrame | cantonese_app.py:196-217 | a fresh overlay holding the stacked block of `cur` (if any), then the grey `Next: <text>` hint at (50, 880) in the Jyutping font (if there is a `nxt`) |

## Left out

- Streamlit UI, session state, file upload, buttons, progress and status widgets and the data editor. These are user interface, not layout logic.
- Whisper transcription, audio extraction and temporary files. These are machine learning and file I/O.
- `safe_translate`: a network call with a sleep. Its `"[Translation Error]"` result on failure is ordinary text to the model. The `english` field is any string.
- `load_fonts`: downloads the font over HTTP. The three fonts are a parameter of `MakeFrame`. The source loads them at sizes 55, 30 and 26, or falls back to PIL's default font; the model does not fix the sizes and does not model the fallback.
- `get_jyutping_list` (the ToJyutping library) is not part of this model. Only the join over its (character, reading) pairs is modelled.
- PIL rasterisation: only the list of `draw.text` calls is kept, not pixels, glyphs or colours as pixels. The older-PIL fallback (`draw.textsize`) is left out: the model treats `draw.textlength` and the width from `draw.textsize` as the one abstract `Font.measure`, and always takes `font.size` as the line height, where the fallback uses the text's box height.
- `Drawing.Font.measure` is total: text PIL refuses to measure (one holding a newline, which `draw.textlength` rejects with an error that ends the export: only the catch-all handler around the export catches it) is not modelled, so the model draws it where the export would stop.
- `Frame.CropRule` models the crop the code asks for. The code uses the MoviePy 2.x API (its imports, and `with_position`) and falls back for the renamed `resize`, but not for `crop`, which MoviePy 2.x names `cropped`: there a clip taller than 500 rows after the resize stops the export with an error at the crop call, caught only by the catch-all handler around the export. That failure is not modelled.
- MoviePy resize, compositing on the dark background, `ColorClip`, frame generation at 24 fps and encoding. The clip height after the resize to width 720 is an input of `CropRule`.
- Floating point: row times are rounded floats in the source and are only compared, so they are `real`. Text widths are `nat`, and x positions are exact reals.
- `str(cur['english'])` and the truthiness tests `if cur:` / `if nxt:` are read as "the field is a string" and "a row was found". Non-string cells that pandas could hold (a missing value) are not modelled.
