/**
 * The colour value of src/colors.rs: an RGB triple of 8-bit channels, its
 * index in the xterm 6x6x6 colour cube, its ANSI truecolor foreground
 * escape `ESC[38;2;r;g;bm` (SGR parameter 38;2 of ECMA-48 / ISO/IEC 8613-6),
 * the palette constants and `RESET`.
 */
module Colors {
  import opened Text

  /** Rust's `u8`. */
  type u8 = x: int | 0 <= x < 256

  /** Rust's `u16`. */
  type u16 = x: int | 0 <= x < 0x1_0000

  /** `Color`: three 8-bit channels, never changed after construction. */
  datatype Color = Color(r: u8, g: u8, b: u8)
  {
    /** `Color::rgb`. */
    function Rgb(): (u8, u8, u8) { (r, g, b) }

    /**
     * `Color::to_256_color`, evaluated step by step in `u16` and `u8` as the
     * source does; each intermediate has its Rust type, so no step overflows.
     */
    function To256(): (idx: u8)
      ensures 16 <= idx <= 231
      ensures idx == CubeIndex(Band(r), Band(g), Band(b))
    {
      var (r, g, b) := Rgb();
      var rw: u16 := r * 5;
      var gw: u16 := g * 5;
      var bw: u16 := b * 5;
      var rb: u8 := rw / 255;
      var gb: u8 := gw / 255;
      var bb: u8 := bw / 255;
      var x1: u8 := 36 * rb;
      var x2: u8 := 16 + x1;
      var x3: u8 := 6 * gb;
      var x4: u8 := x2 + x3;
      x4 + bb
    }
  }

  /** `Color::new`: the colour whose `rgb()` is the given triple. */
  function New(r: u8, g: u8, b: u8): (c: Color)
    ensures c.Rgb() == (r, g, b)
  {
    Color(r, g, b)
  }

  /** The cube coordinate `v * 5 / 255` of a channel: the band of width 51 that holds `v`. */
  function Band(v: u8): (band: nat)
    ensures band <= 5
    ensures 51 * band <= v < 51 * band + 51
  {
    v * 5 / 255
  }

  /** The xterm 256-colour index of the cube cell with the given coordinates. */
  function CubeIndex(rb: nat, gb: nat, bb: nat): nat
    requires rb <= 5 && gb <= 5 && bb <= 5
  {
    16 + 36 * rb + 6 * gb + bb
  }

  /** The cube coordinates of a cube index: the inverse of `CubeIndex`. */
  function CubeCoordinates(idx: nat): (nat, nat, nat)
    requires 16 <= idx <= 231
  {
    var k := idx - 16;
    (k / 36, (k / 6) % 6, k % 6)
  }

  /** A cube index determines its coordinates, so the encoding is injective. */
  lemma CubeIndexDecodes(rb: nat, gb: nat, bb: nat)
    requires rb <= 5 && gb <= 5 && bb <= 5
    ensures 16 <= CubeIndex(rb, gb, bb) <= 231
    ensures CubeCoordinates(CubeIndex(rb, gb, bb)) == (rb, gb, bb)
  {
    var k := 36 * rb + 6 * gb + bb;
    var q := 6 * rb + gb;
    assert k == 6 * q + bb;
    assert k / 6 == q && k % 6 == bb;
    assert q / 6 == rb && q % 6 == gb;
    assert k / 36 == rb by {
      assert k == 36 * rb + (6 * gb + bb);
      assert 0 <= 6 * gb + bb < 36;
    }
  }

  /** Colours in different cube cells get different 256-colour indices. */
  lemma CubeIndexInjective(c: Color, d: Color)
    requires (Band(c.r), Band(c.g), Band(c.b)) != (Band(d.r), Band(d.g), Band(d.b))
    ensures c.To256() != d.To256()
  {
    CubeIndexDecodes(Band(c.r), Band(c.g), Band(c.b));
    CubeIndexDecodes(Band(d.r), Band(d.g), Band(d.b));
  }

  // ---------------------------------------------------------------------
  // ANSI escape sequences

  const Esc: char := '\U{001B}'

  /** What `Display` writes before the three channels. */
  const SgrPrefix: seq<char> := [Esc] + "[38;2;"

  /** `RESET`: the SGR sequence that restores default attributes. */
  const Reset: seq<char> := [Esc] + "[0m"

  /** `Display for Color`: `ESC[38;2;<r>;<g>;<b>m` with the channels in decimal. */
  function Escape(c: Color): (e: seq<char>)
    ensures 13 <= |e| <= 19
    ensures e[..|SgrPrefix|] == SgrPrefix && e[|e| - 1] == 'm'
  {
    DecLengthByte(c.r);
    DecLengthByte(c.g);
    DecLengthByte(c.b);
    SgrPrefix + Dec(c.r) + ";" + Dec(c.g) + ";" + Dec(c.b) + "m"
  }

  /**
   * Reads one truecolor foreground sequence from the front of `s` and
   * returns the colour and what follows it.
   */
  function ParseEscape(s: seq<char>): (res: Option<(Color, seq<char>)>)
    ensures res.Some? ==> |res.value.1| < |s|
  {
    if |s| < |SgrPrefix| || s[..|SgrPrefix|] != SgrPrefix then None
    else
      match ParseNumber(s[|SgrPrefix|..], ';')
      case None => None
      case Some((r, s1)) =>
        match ParseNumber(s1, ';')
        case None => None
        case Some((g, s2)) =>
          match ParseNumber(s2, 'm')
          case None => None
          case Some((b, s3)) =>
            if r < 256 && g < 256 && b < 256 then Some((Color(r, g, b), s3)) else None
  }

  /** Parsing the decimal fields of `Escape(c)` recovers `c`'s channels and leaves what followed. */
  lemma EscapeRoundTrip(c: Color, rest: seq<char>)
    ensures ParseEscape(Escape(c) + rest) == Some((c, rest))
  {
    var s := Escape(c) + rest;
    var s3 := rest;
    var s2 := Dec(c.b) + ['m'] + s3;
    var s1 := Dec(c.g) + [';'] + s2;
    var s0 := Dec(c.r) + [';'] + s1;
    assert s == SgrPrefix + s0;
    assert s[..|SgrPrefix|] == SgrPrefix;
    assert s[|SgrPrefix|..] == s0;
    ParseNumberDec(c.r, ';', s1);
    ParseNumberDec(c.g, ';', s2);
    ParseNumberDec(c.b, 'm', s3);
  }

  /** The three decimal fields of the `Display` output are exactly r, g and b. */
  lemma DisplayFields(c: Color)
    ensures ParseEscape(Escape(c)) == Some((c, []))
  {
    EscapeRoundTrip(c, []);
    assert Escape(c) + [] == Escape(c);
  }

  // ---------------------------------------------------------------------
  // Palette

  const Red: Color := Color(255, 0, 0)
  const Green: Color := Color(0, 255, 0)
  const Blue: Color := Color(0, 0, 255)
  const Yellow: Color := Color(255, 255, 0)
  const Magenta: Color := Color(255, 0, 255)
  const Cyan: Color := Color(0, 255, 255)
  const White: Color := Color(255, 255, 255)
  const Black: Color := Color(0, 0, 0)

  /** The palette constants sit at the corners of the colour cube. */
  lemma PaletteCubeIndices()
    ensures Black.To256() == 16 && Blue.To256() == 21 && Green.To256() == 46
    ensures Cyan.To256() == 51 && Red.To256() == 196 && Magenta.To256() == 201
    ensures Yellow.To256() == 226 && White.To256() == 231
  {
  }

  /** The escape sequences of two palette colours, and `RESET`, character for character. */
  lemma PaletteEscapes()
    ensures Escape(Red) == "\U{001B}[38;2;255;0;0m"
    ensures Escape(Black) == "\U{001B}[38;2;0;0;0m"
    ensures Reset == "\U{001B}[0m"
  {
    assert Dec(255) == "255" by {
      assert Dec(25) == "25" by { assert Dec(2) == "2"; }
    }
    assert Dec(0) == "0";
  }

  // ---------------------------------------------------------------------
  // Text painted character by character

  /**
   * Each character of `text` preceded by the escape of its colour, as
   * `print_fade`, coloured `typewriter` and `rainbow_text` write it.
   */
  function Paint(text: seq<char>, colors: seq<Color>): seq<char>
    requires |colors| == |text|
  {
    if text == [] then []
    else Paint(text[..|text| - 1], colors[..|text| - 1]) + Escape(colors[|text| - 1]) + [text[|text| - 1]]
  }

  /** Painting one more character appends its escape and the character. */
  lemma PaintSnoc(text: seq<char>, colors: seq<Color>, j: nat)
    requires |colors| == |text| && j < |text|
    ensures Paint(text[..j + 1], colors[..j + 1]) == Paint(text[..j], colors[..j]) + Escape(colors[j]) + [text[j]]
  {
    assert text[..j + 1][..j] == text[..j] && colors[..j + 1][..j] == colors[..j];
  }

  /** Splits painted text back into its characters and their colours. */
  function Unpaint(s: seq<char>): Option<(seq<char>, seq<Color>)>
    decreases |s|
  {
    if s == [] then Some(([], []))
    else
      match ParseEscape(s)
      case None => None
      case Some((c, rest)) =>
        if rest == [] then None
        else
          match Unpaint(rest[1..])
          case None => None
          case Some((t, cs)) => Some(([rest[0]] + t, [c] + cs))
  }

  lemma {:induction false} PaintCons(t: char, text: seq<char>, c: Color, colors: seq<Color>)
    requires |colors| == |text|
    ensures Paint([t] + text, [c] + colors) == Escape(c) + [t] + Paint(text, colors)
    decreases |text|
  {
    if text != [] {
      var n := |text|;
      var t0, c0 := text[..n - 1], colors[..n - 1];
      var last, col := text[n - 1], colors[n - 1];
      assert text == t0 + [last] && colors == c0 + [col];
      ConcatAssoc([t], t0, [last]);
      ConcatAssoc([c], c0, [col]);
      PaintLast([t] + t0, [c] + c0, last, col);
      PaintLast(t0, c0, last, col);
      PaintCons(t, t0, c, c0);
      Regroup(Escape(c) + [t], Paint(t0, c0), Escape(col), [last]);
    }
  }

  /** Painting a last character appends its escape and the character. */
  lemma PaintLast(text: seq<char>, colors: seq<Color>, t: char, c: Color)
    requires |colors| == |text|
    ensures Paint(text + [t], colors + [c]) == Paint(text, colors) + Escape(c) + [t]
  {
    assert (text + [t])[..|text|] == text && (colors + [c])[..|colors|] == colors;
  }

  /** Painting is reversible: the characters and their colours can be read back. */
  lemma {:induction false} UnpaintPaint(text: seq<char>, colors: seq<Color>)
    requires |colors| == |text|
    ensures Unpaint(Paint(text, colors)) == Some((text, colors))
    decreases |text|
  {
    if text != [] {
      PaintCons(text[0], text[1..], colors[0], colors[1..]);
      assert [text[0]] + text[1..] == text;
      assert [colors[0]] + colors[1..] == colors;
      var tail := Paint(text[1..], colors[1..]);
      var rest := [text[0]] + tail;
      ConcatAssoc(Escape(colors[0]), [text[0]], tail);
      assert Paint(text, colors) == Escape(colors[0]) + rest;
      EscapeRoundTrip(colors[0], rest);
      assert rest[0] == text[0] && rest[1..] == tail;
      UnpaintPaint(text[1..], colors[1..]);
    }
  }

  /** Painted text has one escape and one character per character of the text. */
  lemma {:induction false} PaintLength(text: seq<char>, colors: seq<Color>)
    requires |colors| == |text|
    ensures 14 * |text| <= |Paint(text, colors)| <= 20 * |text|
    decreases |text|
  {
    if text != [] {
      PaintLength(text[..|text| - 1], colors[..|text| - 1]);
    }
  }
}
