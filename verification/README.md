# rusty-termcolor, modelled in Dafny

rusty-termcolor is a small Rust library for coloured terminal output. It has
three parts, and this project models each one:

- **Colours.** An RGB `Color` value, its xterm 256-colour index, its ANSI
  truecolor escape `ESC[38;2;r;g;bm`, the palette constants and `RESET`.
- **Layout.** Centring a line in the terminal width, drawing a double-line box
  around text, the per-character colour choice of `print_fade`, and banners.
  A banner is ASCII art with a block of centred text beside it, aligned with
  the top, the middle or the bottom of the art.
- **Animated effects.** For `typewriter`, `wiggle`, `matrix_effect`,
  `rainbow_text` and `progress_spinner`, the text each frame writes.

Files:

- `text.dfy` (module `Text`): the parts of Rust's string behaviour that the
  library relies on:
  - `str::lines`, `str::trim_end` (Unicode White_Space), `str::len` (UTF-8
    bytes), `str::repeat` and `str::replace` for single characters;
  - `format!` padding with `{:<w$}` and `{:>w$}`, which counts characters;
  - the decimal `Display` of integers, with a reader for it.
- `arith.dfy` (module `Arithmetic`): facts about multiplication and division
  of natural numbers.
- `colors.dfy` (module `Colors`): `src/colors.rs`, plus `Paint`, the
  "escape before every character" output shared by `print_fade`, coloured
  `typewriter` and `rainbow_text`, and `Unpaint`, its inverse.
- `formatting.dfy` (module `Formatting`): `center_text`, `box_text` and
  `print_fade` from `src/formatting.rs`.
- `banners.dfy` (module `Banners`): `Position`, `Banner` and
  `create_banner` from `src/styles/banners.rs`.
  - `Banner::new` is the constructor of the `Banner` datatype.
  - `Banner::render` is a method, checked against the function `Rendered`.
- `effects.dfy` (module `Effects`): `src/effects.rs`.
  - Each effect is a method that returns `frames` and `tail`. `frames` holds
    what each step writes; `tail` is what is written after the last step. The
    terminal therefore receives `Flatten(frames) + tail`.
  - Each loop of the source is a loop here.

Interaction with the environment is handled as follows:

- The terminal width that `center_text` queries is a parameter, `width`.
- The random generator of `matrix_effect` is a parameter,
  `draw: nat -> nat`. `draw(n)` is the `n`-th number the generator yields
  in `0..26`.
- Flushing and the sleeps between frames are not modelled.

The subtractions below are unguarded `usize` arithmetic. With overflow
checks on, as in a debug build, they panic; in a release build they wrap.
The model excludes these inputs with a `requires` and follows neither
behaviour:

- `center_text` (src/formatting.rs:55): `width - text.len()` underflows when
  the text is longer than the terminal is wide. When it wraps, the field
  width handed to `format!` is close to `2^63`.
- `Banner::render` (src/styles/banners.rs:52-53): `total_lines -
  text_lines.len()` underflows for Middle and Bottom when the text has more
  lines than the art. When it wraps, `text_start` is so large that the test
  `i >= text_start` (src/styles/banners.rs:58) fails for every art line.
  Every art line is then paired with the empty string, and `render` returns
  the art without the text. The `requires` of `Banners.TextStart` and of
  `Banners.Banner.Renderable` excludes both the panic and this release
  behaviour. Each text line shown beside the art goes through
  `center_text`, so it must also fit the width.

One more input panics in every build, and the model excludes it too:

- `print_fade` (src/formatting.rs:37-38): with a non-empty text and an empty
  colour list, `colors[0]` is out of bounds.

Spinner style 1 lists ten Braille glyphs (src/effects.rs:196).

## Model

| member | source | states |
|---|---|---|
| `Colors.New` | src/colors.rs:22-24 | `rgb()` of the new colour is the triple it was built from |
| `Colors.Color.To256` | src/colors.rs:40-43 | the index lies in the colour cube (16..=231) and is cell `16 + 36r + 6g + b` of the channels' bands, computed in `u16`/`u8` without overflow |
| `Colors.Band` | src/colors.rs:42 | `v * 5 / 255` is the band of width 51 containing `v`, at most 5 |
| `Colors.CubeIndexDecodes` | src/colors.rs:42 | the cube index decodes back to its three coordinates |
| `Colors.CubeIndexInjective` | src/colors.rs:40-43 | colours in different cube cells get different 256-colour indices |
| `Colors.Escape` | src/colors.rs:48-50 | the `Display` output starts with `ESC[38;2;`, ends with `m` and is 13 to 19 characters long |
| `Colors.EscapeRoundTrip` | src/colors.rs:48-50 | the three decimal fields of the escape read back as r, g and b, and what follows is left intact |
| `Colors.DisplayFields` | src/colors.rs:48-50 | parsing the escape alone gives the colour and nothing left over |
| `Colors.PaletteCubeIndices` | src/colors.rs:54-61 | the eight palette constants sit at the eight corners of the cube (16, 21, 46, 51, 196, 201, 226, 231) |
| `Colors.PaletteEscapes` | src/colors.rs:49-64 | the escapes of RED and BLACK and `RESET`, character for character |
| `Colors.PaintCons` | src/formatting.rs:36-38 | painting a first character, then the rest, is its escape, the character, then the rest painted |
| `Colors.UnpaintPaint` | src/formatting.rs:36-38 | painted text reads back to its characters and their colours |
| `Colors.PaintLength` | src/formatting.rs:36-38 | each painted character takes 14 to 20 characters of output |
| `Text.Utf8Len` | src/formatting.rs:70 | `str::len` is between 1 and 4 bytes per character, and exactly one per character iff the text is ASCII |
| `Text.Lines` | src/formatting.rs:69 | no line returned by `str::lines` holds a `'\n'`; only the empty string has no lines |
| `Text.LinesOfJoin` | src/formatting.rs:69 | splitting lines that were joined with `'\n'` gives them back, plus the unterminated tail if any |
| `Text.NewlinesOfJoin` | src/styles/banners.rs:73-74 | pushing each line and a `'\n'` gives exactly one `'\n'` per line |
| `Text.MaxWidth` | src/formatting.rs:70 | the maximum bounds every line's byte length and is reached by one of them; 0 for no lines |
| `Text.TrimEnd` | src/styles/banners.rs:77 | `trim_end` gives a prefix, cuts only whitespace, and ends in a non-whitespace character or is empty |
| `Text.TrimEndAllWhitespace` | src/styles/banners.rs:77 | an all-whitespace string trims to nothing |
| `Text.PadRight` | src/formatting.rs:78 | `{:<w$}` keeps the text as prefix and fills with spaces up to `w` characters |
| `Text.PadLeft` | src/formatting.rs:56 | `{:>w$}` keeps the text as suffix and fills with spaces up to `w` characters |
| `Text.ReplaceChar` | src/formatting.rs:81 | `replace` changes exactly the occurrences of the pattern character |
| `Text.Repeat` | src/formatting.rs:71 | `repeat` gives `n` copies of the character |
| `Text.ToUpper` | src/effects.rs:88 | upper-casing maps `a..z` to `A..Z`, 32 code points lower, and keeps every other character |
| `Text.ToLower` | src/effects.rs:90 | lower-casing maps `A..Z` to `a..z`, 32 code points higher, and keeps every other character |
| `Text.Dec` | src/colors.rs:49 | the decimal rendering is non-empty, all digits, without leading zero |
| `Text.DecRoundTrip` | src/colors.rs:49 | the decimal rendering reads back as the number |
| `Text.DecLengthByte` | src/colors.rs:49 | a `u8` takes at most three digits |
| `Text.ParseNumberDec` | src/effects.rs:203 | a rendered number followed by a non-digit parses back to the number and the rest |
| `Formatting.CenterText` | src/formatting.rs:53-57 | the text is kept as a suffix after spaces only; the result has `(width - len) / 2 + len` characters, with `len` the UTF-8 byte length, so for ASCII text the left margin is `(width - len) / 2` |
| `Formatting.CenterTextBalanced` | src/formatting.rs:55-56 | the left margin is half the free space rounded down, so the odd column goes right and the line fits the width |
| `Formatting.CenterEmpty` | src/formatting.rs:53-57 | an empty line centres to `width / 2` spaces |
| `Formatting.BoxText` | src/formatting.rs:68-83 | the string grown line by line equals `Boxed(text)`: top border, one row per line, bottom border |
| `Formatting.BoxedStep` | src/formatting.rs:77-79 | each loop iteration appends the next row and its `'\n'` |
| `Formatting.BoxedFinish` | src/formatting.rs:75-82 | the box is the top border and its `'\n'`, every row with its `'\n'`, then the bottom border |
| `Formatting.BottomBorderShape` | src/formatting.rs:81 | replacing the corners of the top border gives `╚`, `width + 2` times `═`, `╝` |
| `Formatting.BoxRowShape` | src/formatting.rs:78 | a row is `║ `, the line, spaces, ` ║`: `width + 4` characters |
| `Formatting.BoxRowsEqualLength` | src/formatting.rs:69-81 | borders and every row have the same character length, `width + 4` |
| `Formatting.BoxedLines` | src/formatting.rs:68-83 | the box read back line by line is top border, one row per input line, bottom border: `lineCount + 2` lines |
| `Formatting.BorderPlain` | src/formatting.rs:71 | the borders contain no line break |
| `Formatting.BoxRowPlain` | src/formatting.rs:78 | a row of a line without `'\n'` contains no line break |
| `Formatting.BoxedEmpty` | src/formatting.rs:68-83 | an empty text gives `╔══╗`, a newline, `╚══╝` |
| `Formatting.BoxedTwoLines` | src/formatting.rs:68-83 | `"ab\ncd"` boxes to `╔════╗`, `║ ab ║`, `║ cd ║`, `╚════╝` |
| `Formatting.TwoLinesSplit` | src/formatting.rs:69-70 | `"ab\ncd"` has the lines `ab` and `cd`, two bytes wide |
| `Formatting.BordersTwoWide` | src/formatting.rs:71-81 | the borders of a box two wide |
| `Formatting.RowsTwoWide` | src/formatting.rs:78 | the rows of `ab` and `cd` in a box two wide |
| `Formatting.FadeIndex` | src/formatting.rs:37 | `i * colorCount / charCount` is a valid colour index |
| `Formatting.FadeIndexMonotone` | src/formatting.rs:37 | later characters never get an earlier colour |
| `Formatting.FadeIndexEnds` | src/formatting.rs:37 | the first character gets the first colour and, with no more colours than characters, the last gets the last |
| `Formatting.FadeColors` | src/formatting.rs:36-38 | one colour per character, the one `print_fade` indexes |
| `Formatting.PrintFade` | src/formatting.rs:32-42 | the output is every character after the escape of its fade colour, then `RESET` |
| `Banners.TextStart` | src/styles/banners.rs:50-54 | Top starts at 0, Bottom ends the block on the last art line, Middle leaves above at most one line less than below |
| `Banners.Banner.Render` | src/styles/banners.rs:41-78 | the string built in the loop and trimmed equals `Rendered(width)` |
| `Banners.RenderLine` | src/styles/banners.rs:57-71 | the text line chosen for art line `i` fits the width, and the line the loop formats from it is the `i`-th composed line |
| `Banners.CreateBanner` | src/styles/banners.rs:93-96 | building and rendering a banner gives its `Rendered` text |
| `Banners.PairedAlignment` | src/styles/banners.rs:58-62 | text line `k` is beside art line `start + k`; art lines outside the block get `""` |
| `Banners.TopAlignment` | src/styles/banners.rs:51 | at the top, text line `k` is beside art line `k` |
| `Banners.BottomAlignment` | src/styles/banners.rs:53 | at the bottom, the last text line is beside the last art line |
| `Banners.EveryTextLineShown` | src/styles/banners.rs:50-62 | when the text has no more lines than the art, every text line is shown beside its own art line |
| `Banners.TopDropsExtraText` | src/styles/banners.rs:51-62 | at the top, text lines past the last art line are never shown |
| `Banners.ComposedLineShape` | src/styles/banners.rs:64-71 | a line is the art line, spaces up to art width plus padding, then the centred text |
| `Banners.ComposedLineNoNewline` | src/styles/banners.rs:64-71 | a composed line holds no `'\n'` |
| `Banners.AccumulatedLineCount` | src/styles/banners.rs:56-75 | before trimming there is exactly one `'\n'` per art line |
| `Banners.RenderedIsTrimmed` | src/styles/banners.rs:77 | the result is the accumulated text up to its last non-whitespace character |
| `Banners.EmptyArtRendersEmpty` | src/styles/banners.rs:56-77 | art without lines renders to the empty string |
| `Effects.DefaultSettings` | src/effects.rs:17-23 | the default delay is 50 ms, 3 iterations, width 20 |
| `Effects.Typewriter` | src/effects.rs:33-47 | one frame per character, the character after the colour escape if any; `RESET` at the end only with a colour |
| `Effects.TypewriterPlain` | src/effects.rs:34-39 | without colour the stream is exactly the text |
| `Effects.TypewriterColored` | src/effects.rs:34-39 | with a colour the stream is the text painted in that one colour |
| `Effects.AppendPass` | src/effects.rs:83-84 | after another pass of `len` frames, frame `k` of the run is frame `k % len` of a pass |
| `Effects.WiggleLine` | src/effects.rs:85-92 | the inner loop builds the wiggle frame for position `i` |
| `Effects.WigglePass` | src/effects.rs:84-100 | one pass redraws the text once per position |
| `Effects.Wiggle` | src/effects.rs:79-108 | `iterations * len` frames, frame `k` upper-casing position `k % len`; `RESET` only with a colour, then newline |
| `Effects.WiggleFrameCase` | src/effects.rs:86-92 | only the position `i` is upper-cased, the text is kept up to case, and on lower-case letters exactly one position changes |
| `Effects.MatrixLine` | src/effects.rs:124-136 | the line reveals characters `0..=i` and draws one symbol per remaining position, consuming that many draws |
| `Effects.MatrixFrameShape` | src/effects.rs:125-135 | a matrix line is the revealed prefix followed by symbols only |
| `Effects.RedrawMatrixFrame` | src/effects.rs:137-141 | the carriage return and colour escape before a matrix line keep it a matrix frame |
| `Effects.MatrixRedrawLine` | src/effects.rs:124-141 | a frame is the matrix line after the redraw prefix |
| `Effects.MatrixPass` | src/effects.rs:123-144 | one pass has one frame per position, frame `i` revealing `0..=i` |
| `Effects.MatrixEffect` | src/effects.rs:117-152 | `iterations * len` frames, frame `k` revealing `0..=k % len` with symbols after; `RESET` only with a colour, then newline |
| `Effects.MatrixLastFrameIsText` | src/effects.rs:123-127 | the last frame of a pass shows exactly the text |
| `Effects.RainbowColors` | src/effects.rs:175 | character `j` at rotation `i` gets rainbow colour `(i + j) % 7` |
| `Effects.RainbowLine` | src/effects.rs:173-177 | the inner loop paints the text in the rotation's colours |
| `Effects.RainbowPass` | src/effects.rs:172-181 | one pass draws the seven rotations in order |
| `Effects.RainbowText` | src/effects.rs:160-184 | `iterations * 7` frames, frame `k` the text painted at rotation `k % 7` then `RESET`; one newline at the end |
| `Effects.RainbowRotation` | src/effects.rs:175 | each rotation shifts the colours one character left; seven rotations return to the start |
| `Effects.RainbowFrameDecodes` | src/effects.rs:176 | a rainbow frame reads back to the text and its colours |
| `Effects.SpinnerGlyphs` | src/effects.rs:195-199 | style 1 has 10 glyphs, style 2 has 8, any other style 4 |
| `Effects.ProgressSpinner` | src/effects.rs:194-208 | `total + 1` frames, frame `i` showing glyph `i % n` and the counter `i/total`; `RESET` and newline at the end |
| `Effects.SpinnerPeriodic` | src/effects.rs:202 | the glyph repeats every `n` steps |
| `Effects.CounterDecodes` | src/effects.rs:203 | the counter reads back as the step and the total |

## Left out

- `print!`, `println!`, flushing and `thread::sleep`: output is returned as strings instead of written, and delays are not modelled.
- `terminal_size()` and its fallback to 80 columns: the width is a parameter of `CenterText` and of the banner functions.
- `rand::thread_rng` in `matrix_effect`: replaced by the parameter `draw`. The model does not say which numbers are drawn, only that each is below 26.
- `print_colored`, `println_colored`, `fade_color`, `random_pleasing_color` and `loading_bar`: they are outside the modelled core, and the last three compute with `f32`.
- `src/system.rs` and `src/lib.rs` are not part of this model.
- `Text.ToUpper`: models `to_uppercase().next()` for ASCII letters only. Every other character is kept unchanged, so non-ASCII case mapping is not modelled.
- `Text.ToLower`: the same restriction for `to_lowercase().next()`.
- `Effects.MatrixEffect`: states the shape of each frame (the revealed prefix, then symbols) but not which symbols. Those depend on the generator.
