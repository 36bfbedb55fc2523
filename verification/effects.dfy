/**
 * The frames drawn by the timed effects of src/effects.rs. Each effect is a
 * method that returns the text written for every frame, in order, and the
 * text written after the last frame; flushing and sleeping between frames
 * are not modelled, so the written stream is `Flatten(frames) + tail`.
 */
module Effects {
  import opened Text
  import opened Colors
  import opened Arithmetic

  /** `EffectSettings`: delay between frames (ms), passes over the effect, bar width. */
  datatype EffectSettings = EffectSettings(delay: nat, iterations: nat, width: nat)

  /** `EffectSettings::default`. */
  function DefaultSettings(): (s: EffectSettings)
    ensures s.delay == 50 && s.iterations == 3 && s.width == 20
  {
    EffectSettings(50, 3, 20)
  }

  /** The escape written before coloured output: nothing when there is no colour. */
  function ColorPrefix(color: Option<Color>): seq<char>
  {
    match color
    case None => []
    case Some(c) => Escape(c)
  }

  /** `RESET` when a colour was used, nothing otherwise. */
  function ColorEnd(color: Option<Color>): seq<char>
  {
    if color.Some? then Reset else []
  }

  /** What goes before a line redrawn in place: a carriage return and the colour escape. */
  function RedrawPrefix(color: Option<Color>): seq<char>
  {
    ['\r'] + ColorPrefix(color)
  }

  /** A line redrawn in place: `print!("\r{col}{line}")`. */
  function Redraw(color: Option<Color>, line: seq<char>): seq<char>
  {
    RedrawPrefix(color) + line
  }

  // ---------------------------------------------------------------------
  // typewriter

  /** `typewriter`: one frame per character, the character after the colour escape if any. */
  method Typewriter(text: seq<char>, settings: EffectSettings, color: Option<Color>)
    returns (frames: seq<seq<char>>, tail: seq<char>)
    ensures |frames| == |text|
    ensures forall k :: 0 <= k < |frames| ==> frames[k] == ColorPrefix(color) + [text[k]]
    ensures tail == ColorEnd(color)
  {
    frames := [];
    for k := 0 to |text|
      invariant |frames| == k
      invariant forall m :: 0 <= m < k ==> frames[m] == ColorPrefix(color) + [text[m]]
    {
      var c := text[k];
      var frame := if color.Some? then Escape(color.value) + [c] else [c];
      frames := frames + [frame];
    }
    tail := if color.Some? then Reset else [];
  }

  /** Without colour the typewriter writes exactly the text. */
  lemma {:induction false} TypewriterPlain(text: seq<char>, frames: seq<seq<char>>)
    requires |frames| == |text|
    requires forall k :: 0 <= k < |frames| ==> frames[k] == [text[k]]
    ensures Flatten(frames) == text
    decreases |text|
  {
    if text != [] {
      var n := |text| - 1;
      TypewriterPlain(text[..n], frames[..n]);
      assert frames[..n + 1] == frames;
      assert text[..n] + [text[n]] == text;
    }
  }

  /**
   * With colour the typewriter writes every character after the colour's
   * escape (and `RESET` once, as its tail).
   */
  lemma {:induction false} TypewriterColored(text: seq<char>, c: Color, frames: seq<seq<char>>)
    requires |frames| == |text|
    requires forall k :: 0 <= k < |frames| ==> frames[k] == Escape(c) + [text[k]]
    ensures Flatten(frames) == Paint(text, Repeated(c, |text|))
    decreases |text|
  {
    if text != [] {
      var n := |text| - 1;
      var cs := Repeated(c, |text|);
      TypewriterColored(text[..n], c, frames[..n]);
      assert frames[..n + 1] == frames;
      assert text[..n + 1] == text;
      assert cs[..n] == Repeated(c, n);
      var p := Paint(text[..n], cs[..n]);
      calc {
        Flatten(frames);
        Flatten(frames[..n]) + frames[n];
        p + (Escape(c) + [text[n]]);
        p + Escape(c) + [text[n]];
        Paint(text, cs);
      }
    }
  }

  /** `n` copies of one colour. */
  function Repeated(c: Color, n: nat): (cs: seq<Color>)
    ensures |cs| == n && forall i :: 0 <= i < n ==> cs[i] == c
  {
    seq(n, _ => c)
  }

  // ---------------------------------------------------------------------
  // Effects that repeat a pass of frames

  /**
   * Appending pass number `pass` to the frames of the earlier passes: when
   * frame `i` of every pass satisfies `ok(_, i)`, so does frame `k` of the
   * whole run with `k % len`.
   */
  lemma AppendPass(frames: seq<seq<char>>, onePass: seq<seq<char>>, len: nat, pass: nat,
                   ok: (seq<char>, nat) -> bool)
    requires |frames| == pass * len && |onePass| == len
    requires forall k :: 0 <= k < |frames| ==> ok(frames[k], k % len)
    requires forall i :: 0 <= i < len ==> ok(onePass[i], i)
    ensures |frames + onePass| == (pass + 1) * len
    ensures forall k :: 0 <= k < |frames + onePass| ==> ok((frames + onePass)[k], k % len)
  {
    NextRow(len, pass);
    var all := frames + onePass;
    forall k | 0 <= k < |all|
      ensures ok(all[k], k % len)
    {
      if k < |frames| {
        assert all[k] == frames[k];
      } else {
        DivSplit(len, pass, k - |frames|);
        assert all[k] == onePass[k - |frames|];
      }
    }
  }

  // ---------------------------------------------------------------------
  // wiggle

  /** Frame `i` of a wiggle pass: position `i` upper-cased, every other position lower-cased. */
  function WiggleFrame(chars: seq<char>, i: nat): (line: seq<char>)
    ensures |line| == |chars|
  {
    seq(|chars|, j requires 0 <= j < |chars| => if j == i then ToUpper(chars[j]) else ToLower(chars[j]))
  }

  /** The inner loop of `wiggle`: build one line character by character. */
  method WiggleLine(chars: seq<char>, i: nat) returns (line: seq<char>)
    ensures line == WiggleFrame(chars, i)
  {
    line := [];
    for j := 0 to |chars|
      invariant line == WiggleFrame(chars, i)[..j]
    {
      var c := chars[j];
      if j == i {
        line := line + [ToUpper(c)];
      } else {
        line := line + [ToLower(c)];
      }
    }
  }

  /** One pass of `wiggle`: the text redrawn once per position. */
  method WigglePass(text: seq<char>, color: Option<Color>) returns (onePass: seq<seq<char>>)
    ensures |onePass| == |text|
    ensures forall i :: 0 <= i < |onePass| ==> onePass[i] == Redraw(color, WiggleFrame(text, i))
  {
    onePass := [];
    for i := 0 to |text|
      invariant |onePass| == i
      invariant forall m :: 0 <= m < i ==> onePass[m] == Redraw(color, WiggleFrame(text, m))
    {
      var line := WiggleLine(text, i);
      onePass := onePass + [Redraw(color, line)];
    }
  }

  /** `wiggle`: `iterations` passes, each redrawing the text once per position. */
  method Wiggle(text: seq<char>, settings: EffectSettings, color: Option<Color>)
    returns (frames: seq<seq<char>>, tail: seq<char>)
    ensures |frames| == settings.iterations * |text|
    ensures forall k :: 0 <= k < |frames| ==> frames[k] == Redraw(color, WiggleFrame(text, k % |text|))
    ensures tail == ColorEnd(color) + ['\n']
  {
    ghost var ok := (frame: seq<char>, i: nat) => frame == Redraw(color, WiggleFrame(text, i));
    frames := [];
    for pass := 0 to settings.iterations
      invariant |frames| == pass * |text|
      invariant forall k :: 0 <= k < |frames| ==> frames[k] == Redraw(color, WiggleFrame(text, k % |text|))
    {
      var onePass := WigglePass(text, color);
      AppendPass(frames, onePass, |text|, pass, ok);
      frames := frames + onePass;
    }
    tail := ColorEnd(color) + ['\n'];
  }

  /**
   * A wiggle frame keeps the text apart from case: it upper-cases the
   * letter at `i` and lower-cases the rest. On lower-case ASCII letters
   * exactly one position changes.
   */
  lemma WiggleFrameCase(chars: seq<char>, i: nat)
    requires i < |chars|
    ensures var f := WiggleFrame(chars, i);
      && f[i] == ToUpper(chars[i])
      && (forall j :: 0 <= j < |chars| && j != i ==> f[j] == ToLower(chars[j]))
      && (forall j :: 0 <= j < |chars| ==> ToLower(f[j]) == ToLower(chars[j]))
    ensures (forall j :: 0 <= j < |chars| ==> 'a' <= chars[j] <= 'z') ==>
      forall j :: 0 <= j < |chars| ==> (WiggleFrame(chars, i)[j] != chars[j] <==> j == i)
  {
    var f := WiggleFrame(chars, i);
    forall j | 0 <= j < |chars|
      ensures ToLower(f[j]) == ToLower(chars[j])
    {
      LowerOfUpper(chars[j]);
    }
  }

  // ---------------------------------------------------------------------
  // matrix_effect

  /** The symbols a not yet revealed position shows. */
  const Symbols: seq<char> := "!@#$%^&*()_+-=[]{}|;:,.<>?"

  /**
   * Frame `i` of a matrix pass: characters `0..=i` of the text, then one
   * symbol per remaining position, the `m`-th of them `Symbols[draw(next + m)]`.
   */
  function MatrixFrame(chars: seq<char>, i: nat, draw: nat -> nat, next: nat): (line: seq<char>)
    requires i < |chars|
    requires forall n :: draw(n) < |Symbols|
  {
    chars[..i + 1] + seq(|chars| - 1 - i, m requires 0 <= m => Symbols[draw(next + m)])
  }

  /**
   * The inner loop of `matrix_effect`. `draw(n)` is the `n`-th number the
   * random generator yields in `0..symbols.len()`; `next` is how many were
   * drawn before, and `next'` how many after this line.
   */
  method MatrixLine(chars: seq<char>, i: nat, draw: nat -> nat, next: nat) returns (line: seq<char>, next': nat)
    requires i < |chars|
    requires forall n :: draw(n) < |Symbols|
    ensures line == MatrixFrame(chars, i, draw, next)
    ensures next' == next + (|chars| - 1 - i)
  {
    ghost var frame := MatrixFrame(chars, i, draw, next);
    line := [];
    next' := next;
    for j := 0 to |chars|
      invariant line == frame[..j]
      invariant next' == if j <= i then next else next + (j - 1 - i)
    {
      if j <= i {
        line := line + [chars[j]];
      } else {
        line := line + [Symbols[draw(next')]];
        next' := next' + 1;
      }
    }
  }

  /** What every matrix frame promises: the revealed prefix, then symbols. */
  ghost predicate IsMatrixFrame(line: seq<char>, chars: seq<char>, i: nat)
  {
    && i < |chars| && |line| == |chars|
    && line[..i + 1] == chars[..i + 1]
    && forall j :: i < j < |chars| ==> line[j] in Symbols
  }

  /** A matrix frame as drawn: the redraw prefix, then a line that `IsMatrixFrame`. */
  ghost predicate IsMatrixRedraw(frame: seq<char>, color: Option<Color>, chars: seq<char>, i: nat)
  {
    var pre := RedrawPrefix(color);
    |pre| < |frame| && frame[..|pre|] == pre && IsMatrixFrame(frame[|pre|..], chars, i)
  }

  lemma MatrixFrameShape(chars: seq<char>, i: nat, draw: nat -> nat, next: nat)
    requires i < |chars|
    requires forall n :: draw(n) < |Symbols|
    ensures IsMatrixFrame(MatrixFrame(chars, i, draw, next), chars, i)
  {
    var line := MatrixFrame(chars, i, draw, next);
    assert line[..i + 1] == chars[..i + 1];
    forall j | i < j < |chars|
      ensures line[j] in Symbols
    {
      assert line[j] == Symbols[draw(next + (j - i - 1))];
    }
  }

  /** One matrix frame redrawn in place, after the colour escape if any. */
  method MatrixRedrawLine(chars: seq<char>, i: nat, color: Option<Color>, draw: nat -> nat, next: nat)
    returns (frame: seq<char>, next': nat)
    requires i < |chars|
    requires forall n :: draw(n) < |Symbols|
    ensures frame == Redraw(color, MatrixFrame(chars, i, draw, next))
    ensures IsMatrixRedraw(frame, color, chars, i)
    ensures next' == next + (|chars| - 1 - i)
  {
    var line;
    line, next' := MatrixLine(chars, i, draw, next);
    MatrixFrameShape(chars, i, draw, next);
    RedrawMatrixFrame(color, line, chars, i);
    frame := Redraw(color, line);
  }

  /** Redrawing a matrix line after its prefix keeps it a matrix frame. */
  lemma RedrawMatrixFrame(color: Option<Color>, line: seq<char>, chars: seq<char>, i: nat)
    requires IsMatrixFrame(line, chars, i)
    ensures IsMatrixRedraw(Redraw(color, line), color, chars, i)
  {
    SplitConcat(RedrawPrefix(color), line);
  }

  /** One pass of `matrix_effect`: one frame per revealed position. */
  method MatrixPass(text: seq<char>, color: Option<Color>, draw: nat -> nat, next: nat)
    returns (onePass: seq<seq<char>>, next': nat)
    requires forall n :: draw(n) < |Symbols|
    ensures |onePass| == |text|
    ensures forall i :: 0 <= i < |onePass| ==> IsMatrixRedraw(onePass[i], color, text, i)
  {
    onePass := [];
    next' := next;
    for i := 0 to |text|
      invariant |onePass| == i
      invariant forall m :: 0 <= m < i ==> IsMatrixRedraw(onePass[m], color, text, m)
    {
      var frame;
      frame, next' := MatrixRedrawLine(text, i, color, draw, next');
      onePass := onePass + [frame];
    }
  }

  /**
   * `matrix_effect`: `iterations` passes, each revealing the text one more
   * character per frame. Frame `k` reveals positions `0..=k % len`.
   */
  method MatrixEffect(text: seq<char>, settings: EffectSettings, color: Option<Color>, draw: nat -> nat)
    returns (frames: seq<seq<char>>, tail: seq<char>)
    requires forall n :: draw(n) < |Symbols|
    ensures |frames| == settings.iterations * |text|
    ensures forall k :: 0 <= k < |frames| ==> IsMatrixRedraw(frames[k], color, text, k % |text|)
    ensures tail == ColorEnd(color) + ['\n']
  {
    ghost var ok := (frame: seq<char>, i: nat) => IsMatrixRedraw(frame, color, text, i);
    var next: nat := 0;
    frames := [];
    for pass := 0 to settings.iterations
      invariant |frames| == pass * |text|
      invariant forall k :: 0 <= k < |frames| ==> IsMatrixRedraw(frames[k], color, text, k % |text|)
    {
      var onePass;
      onePass, next := MatrixPass(text, color, draw, next);
      AppendPass(frames, onePass, |text|, pass, ok);
      frames := frames + onePass;
    }
    tail := ColorEnd(color) + ['\n'];
  }

  /** The last frame of every pass shows the whole text. */
  lemma MatrixLastFrameIsText(line: seq<char>, chars: seq<char>)
    requires chars != [] && IsMatrixFrame(line, chars, |chars| - 1)
    ensures line == chars
  {
    assert line == line[..|chars|];
    assert chars == chars[..|chars|];
  }

  // ---------------------------------------------------------------------
  // rainbow_text

  /** The spectrum `rainbow_text` cycles through: red, orange, yellow, green, blue, indigo, violet. */
  const Rainbow: seq<Color> := [
    Color(255, 0, 0), Color(255, 127, 0), Color(255, 255, 0), Color(0, 255, 0),
    Color(0, 0, 255), Color(75, 0, 130), Color(143, 0, 255)]

  /** The colour of each of `n` characters at rotation `i`: entry `(i + j) % 7`. */
  function RainbowColors(n: nat, i: nat): (cs: seq<Color>)
    ensures |cs| == n
    ensures forall j :: 0 <= j < n ==> cs[j] == Rainbow[(i + j) % |Rainbow|]
  {
    seq(n, j requires 0 <= j < n => Rainbow[(i + j) % |Rainbow|])
  }

  /** The inner loop of `rainbow_text`: every character after the escape of its colour. */
  method RainbowLine(text: seq<char>, i: nat) returns (colored: seq<char>)
    ensures colored == Paint(text, RainbowColors(|text|, i))
  {
    ghost var cs := RainbowColors(|text|, i);
    colored := [];
    for j := 0 to |text|
      invariant colored == Paint(text[..j], cs[..j])
    {
      var colorIndex := (i + j) % |Rainbow|;
      PaintSnoc(text, cs, j);
      colored := colored + Escape(Rainbow[colorIndex]) + [text[j]];
    }
    assert text[..|text|] == text && cs[..|text|] == cs;
  }

  /** Rotation `i` as `rainbow_text` draws it: redrawn in place, then `RESET`. */
  function RainbowFrame(text: seq<char>, i: nat): seq<char>
  {
    ['\r'] + Paint(text, RainbowColors(|text|, i)) + Reset
  }

  /** One pass of `rainbow_text`: the seven rotations. */
  method RainbowPass(text: seq<char>) returns (onePass: seq<seq<char>>)
    ensures |onePass| == |Rainbow|
    ensures forall i :: 0 <= i < |onePass| ==> onePass[i] == RainbowFrame(text, i)
  {
    onePass := [];
    for i := 0 to |Rainbow|
      invariant |onePass| == i
      invariant forall m :: 0 <= m < i ==> onePass[m] == RainbowFrame(text, m)
    {
      var coloredText := RainbowLine(text, i);
      var frame := ['\r'] + coloredText + Reset;
      assert frame == RainbowFrame(text, i);
      ghost var before := onePass;
      onePass := onePass + [frame];
      forall m | 0 <= m < i + 1
        ensures onePass[m] == RainbowFrame(text, m)
      {
        if m < i {
          assert onePass[m] == before[m];
        }
      }
    }
  }

  /** `rainbow_text`: `iterations` passes of seven rotations, each line redrawn and reset. */
  method RainbowText(text: seq<char>, settings: EffectSettings) returns (frames: seq<seq<char>>, tail: seq<char>)
    ensures |frames| == settings.iterations * |Rainbow|
    ensures forall k :: 0 <= k < |frames| ==> frames[k] == RainbowFrame(text, k % |Rainbow|)
    ensures tail == ['\n']
  {
    ghost var ok := (frame: seq<char>, i: nat) => frame == RainbowFrame(text, i);
    frames := [];
    for pass := 0 to settings.iterations
      invariant |frames| == pass * |Rainbow|
      invariant forall k :: 0 <= k < |frames| ==> frames[k] == RainbowFrame(text, k % |Rainbow|)
    {
      var onePass := RainbowPass(text);
      AppendPass(frames, onePass, |Rainbow|, pass, ok);
      frames := frames + onePass;
    }
    tail := ['\n'];
  }

  /**
   * Each rotation shifts the colours one character to the left, and after
   * seven rotations the colouring repeats.
   */
  lemma RainbowRotation(n: nat, i: nat)
    ensures var next, cur := RainbowColors(n, i + 1), RainbowColors(n, i);
      forall j :: 0 < j < n ==> next[j - 1] == cur[j]
    ensures RainbowColors(n, i + |Rainbow|) == RainbowColors(n, i)
  {
    var a := RainbowColors(n, i + |Rainbow|);
    var b := RainbowColors(n, i);
    forall j | 0 <= j < n
      ensures a[j] == b[j]
    {
      assert i + |Rainbow| + j == (i + j) + |Rainbow|;
    }
  }

  /** A rainbow frame can be read back into the text and the colour of each character. */
  lemma RainbowFrameDecodes(text: seq<char>, i: nat)
    ensures Unpaint(Paint(text, RainbowColors(|text|, i))) == Some((text, RainbowColors(|text|, i)))
  {
    UnpaintPaint(text, RainbowColors(|text|, i));
  }

  // ---------------------------------------------------------------------
  // progress_spinner

  /** The glyphs of a spinner style: Braille dots for 1, arrows for 2, `| / - \` otherwise. */
  function SpinnerGlyphs(style: nat): (glyphs: seq<char>)
    ensures |glyphs| == (if style == 1 then 10 else if style == 2 then 8 else 4)
  {
    if style == 1 then
      ['\U{280B}', '\U{2819}', '\U{2839}', '\U{2838}', '\U{283C}', '\U{2834}', '\U{2826}', '\U{2827}', '\U{2807}', '\U{280F}']
    else if style == 2 then
      ['\U{2190}', '\U{2196}', '\U{2191}', '\U{2197}', '\U{2192}', '\U{2198}', '\U{2193}', '\U{2199}']
    else
      ['|', '/', '-', '\\']
  }

  /** The counter after the glyph: `" {i}/{total}"`. */
  function Counter(i: nat, total: nat): seq<char>
  {
    [' '] + Dec(i) + ['/'] + Dec(total)
  }

  /** `progress_spinner`: steps `0..=total`, each redrawn with its glyph and counter. */
  method ProgressSpinner(total: nat, settings: EffectSettings, color: Color, style: nat)
    returns (frames: seq<seq<char>>, tail: seq<char>)
    ensures |frames| == total + 1
    ensures forall i :: 0 <= i < |frames| ==>
      frames[i] == ['\r'] + Escape(color) + [SpinnerGlyphs(style)[i % |SpinnerGlyphs(style)|]] + Counter(i, total)
    ensures tail == Reset + ['\n']
  {
    var spinnerChars := SpinnerGlyphs(style);
    frames := [];
    for i := 0 to total + 1
      invariant |frames| == i
      invariant forall m :: 0 <= m < i ==>
        frames[m] == ['\r'] + Escape(color) + [spinnerChars[m % |spinnerChars|]] + Counter(m, total)
    {
      var spinnerChar := spinnerChars[i % |spinnerChars|];
      frames := frames + [['\r'] + Escape(color) + [spinnerChar] + Counter(i, total)];
    }
    tail := Reset + ['\n'];
  }

  /** The glyph shown at step `i` comes back every `n` steps, `n` the style's glyph count. */
  lemma SpinnerPeriodic(style: nat, i: nat)
    ensures var g := SpinnerGlyphs(style);
      g[(i + |g|) % |g|] == g[i % |g|]
  {
    ModPeriod(|SpinnerGlyphs(style)|, i);
  }

  /** The counter reads back as the step and the total. */
  lemma CounterDecodes(i: nat, total: nat)
    ensures ParseNumber(Counter(i, total)[1..], '/') == Some((i, Dec(total)))
  {
    assert Counter(i, total)[1..] == Dec(i) + ['/'] + Dec(total);
    ParseNumberDec(i, '/', Dec(total));
  }
}
