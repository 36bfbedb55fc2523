/**
 * Banner composition of src/styles/banners.rs: ASCII art on the left, a
 * block of text lines beside it, each centred in the terminal width, the
 * block aligned with the top, the middle or the bottom of the art.
 */
module Banners {
  import opened Text
  import opened Formatting

  /** Where the text block sits against the art. */
  datatype Position = Top | Middle | Bottom

  /**
   * The art line at which the text block starts: `total_lines -
   * text_lines.len()` and its half are unguarded `usize` subtractions, so
   * Middle and Bottom need no more text lines than art lines.
   */
  function TextStart(position: Position, artCount: nat, textCount: nat): (start: nat)
    requires position != Top ==> textCount <= artCount
    ensures position == Top ==> start == 0
    ensures position == Bottom ==> start + textCount == artCount
    ensures position == Middle ==>
      var below := artCount - textCount - start;
      start <= below <= start + 1
  {
    match position
    case Top => 0
    case Middle => (artCount - textCount) / 2
    case Bottom => artCount - textCount
  }

  /** The text line beside art line `i`: the block's line `i - start`, or nothing outside the block. */
  function Paired(textLines: seq<seq<char>>, start: nat, i: nat): seq<char>
  {
    if start <= i < start + |textLines| then textLines[i - start] else []
  }

  /**
   * `Banner`, as `Banner::new` builds it: the art, the text, the number of
   * spaces between the two columns and the position of the text.
   */
  datatype Banner = Banner(asciiArt: seq<char>, text: seq<char>, padding: nat, position: Position)
  {
    function ArtLines(): seq<seq<char>> { Lines(asciiArt) }

    function TextLines(): seq<seq<char>> { Lines(text) }

    /** The widest art line, in UTF-8 bytes. */
    function ArtWidth(): nat { MaxWidth(ArtLines()) }

    /**
     * What `render` needs to run without an arithmetic underflow: the text
     * block fits beside the art when it is not at the top, and each text
     * line that is shown fits in the terminal width.
     */
    predicate Renderable(width: nat)
    {
      && (position != Top ==> |TextLines()| <= |ArtLines()|)
      && forall i :: 0 <= i < |ArtLines()| ==> Utf8Len(TextBeside(i)) <= width
    }

    function Start(): nat
      requires position != Top ==> |TextLines()| <= |ArtLines()|
    {
      TextStart(position, |ArtLines()|, |TextLines()|)
    }

    /** The text line composed with art line `i`. */
    function TextBeside(i: nat): seq<char>
      requires position != Top ==> |TextLines()| <= |ArtLines()|
    {
      Paired(TextLines(), Start(), i)
    }

    /** Art line `i` left-justified to the art width, the padding, the centred text line. */
    function ComposedLine(i: nat, width: nat): seq<char>
      requires Renderable(width) && i < |ArtLines()|
    {
      PadRight(ArtLines()[i], ArtWidth()) + Spaces(padding) + CenterText(TextBeside(i), width)
    }

    function ComposedLines(width: nat): (ls: seq<seq<char>>)
      requires Renderable(width)
      ensures |ls| == |ArtLines()|
      ensures forall i :: 0 <= i < |ls| ==> ls[i] == ComposedLine(i, width)
    {
      seq(|ArtLines()|, i requires 0 <= i < |ArtLines()| => ComposedLine(i, width))
    }

    /** What `render` builds before trimming: every composed line followed by '\n'. */
    function Accumulated(width: nat): seq<char>
      requires Renderable(width)
    {
      JoinLines(ComposedLines(width))
    }

    /** What `render` returns: the accumulated lines without trailing whitespace. */
    function Rendered(width: nat): seq<char>
      requires Renderable(width)
    {
      TrimEnd(Accumulated(width))
    }

    /** `Banner::render`, with the terminal width that `center_text` reads passed in. */
    method Render(width: nat) returns (r: seq<char>)
      requires Renderable(width)
      ensures r == Rendered(width)
    {
      var asciiLines := Lines(asciiArt);
      var textLines := Lines(text);
      var asciiWidth := MaxWidth(asciiLines);
      var totalLines := |asciiLines|;
      var textStart := TextStart(position, totalLines, |textLines|);
      ghost var composed := ComposedLines(width);
      var result: seq<char> := [];
      for i := 0 to totalLines
        invariant result == JoinLines(composed[..i])
      {
        var textLine := Paired(textLines, textStart, i);
        RenderLine(this, width, i);
        var line := PadRight(asciiLines[i], asciiWidth) + Spaces(padding) + CenterText(textLine, width);
        JoinLinesSnoc(composed, i);
        result := result + line + ['\n'];
      }
      assert composed[..totalLines] == composed;
      r := TrimEnd(result);
    }
  }

  /**
   * Line `i` as the loop of `render` composes it from the split art and
   * text: the text line beside it fits the width, and the composed line is
   * `ComposedLines(width)[i]`.
   */
  lemma RenderLine(b: Banner, width: nat, i: nat)
    requires b.Renderable(width) && i < |b.ArtLines()|
    ensures var textLines := Lines(b.text);
      var textLine := Paired(textLines, TextStart(b.position, |Lines(b.asciiArt)|, |textLines|), i);
      && Utf8Len(textLine) <= width
      && b.ComposedLines(width)[i]
         == PadRight(Lines(b.asciiArt)[i], MaxWidth(Lines(b.asciiArt))) + Spaces(b.padding) + CenterText(textLine, width)
  {
    assert b.ComposedLines(width)[i] == b.ComposedLine(i, width);
  }

  /** `create_banner`: build the banner and render it. */
  method CreateBanner(asciiArt: seq<char>, text: seq<char>, padding: nat, position: Position, width: nat)
    returns (r: seq<char>)
    requires Banner(asciiArt, text, padding, position).Renderable(width)
    ensures r == Banner(asciiArt, text, padding, position).Rendered(width)
  {
    var banner := Banner(asciiArt, text, padding, position);
    r := banner.Render(width);
  }

  // ---------------------------------------------------------------------
  // Properties of the layout

  /**
   * Text line `k` sits beside art line `start + k`, and an art line outside
   * the block gets no text.
   */
  lemma PairedAlignment(textLines: seq<seq<char>>, start: nat, i: nat)
    ensures start <= i < start + |textLines| ==> Paired(textLines, start, i) == textLines[i - start]
    ensures !(start <= i < start + |textLines|) ==> Paired(textLines, start, i) == []
    ensures forall k :: 0 <= k < |textLines| ==> Paired(textLines, start, start + k) == textLines[k]
  {
  }

  /** At the top, text line `k` is beside art line `k`. */
  lemma TopAlignment(b: Banner, k: nat)
    requires b.position == Top && k < |b.TextLines()|
    ensures b.TextBeside(k) == b.TextLines()[k]
  {
  }

  /** At the bottom, the last text line is beside the last art line. */
  lemma BottomAlignment(b: Banner)
    requires b.position == Bottom && 0 < |b.TextLines()| <= |b.ArtLines()|
    ensures b.TextBeside(|b.ArtLines()| - 1) == b.TextLines()[|b.TextLines()| - 1]
  {
  }

  /**
   * Unless it starts at the top with more text than art, every text line
   * is shown, each beside its own art line.
   */
  lemma EveryTextLineShown(b: Banner, k: nat)
    requires |b.TextLines()| <= |b.ArtLines()| && k < |b.TextLines()|
    ensures b.Start() + k < |b.ArtLines()|
    ensures b.TextBeside(b.Start() + k) == b.TextLines()[k]
  {
  }

  /** At the top, text lines past the last art line are never shown. */
  lemma TopDropsExtraText(b: Banner, i: nat)
    requires b.position == Top && i < |b.ArtLines()|
    ensures b.TextBeside(i) == (if i < |b.TextLines()| then b.TextLines()[i] else [])
  {
  }

  /**
   * A composed line is the art line padded to the art width (in
   * characters), `padding` spaces, then the centred text.
   */
  lemma ComposedLineShape(b: Banner, i: nat, width: nat)
    requires b.Renderable(width) && i < |b.ArtLines()|
    ensures var line := b.ComposedLine(i, width);
      var w := b.ArtWidth();
      && w + b.padding <= |line|
      && line[..|b.ArtLines()[i]|] == b.ArtLines()[i]
      && (forall k :: |b.ArtLines()[i]| <= k < w + b.padding ==> line[k] == ' ')
      && line[w + b.padding..] == CenterText(b.TextBeside(i), width)
  {
    var art := b.ArtLines()[i];
    var w := b.ArtWidth();
    assert Utf8Len(art) <= w;
    var padded := PadRight(art, w);
    var line := b.ComposedLine(i, width);
    assert |padded| == w;
    assert line == padded + Spaces(b.padding) + CenterText(b.TextBeside(i), width);
    assert line[..|art|] == padded[..|art|];
    forall k | |art| <= k < w + b.padding
      ensures line[k] == ' '
    {
      if k < w { assert line[k] == padded[k]; }
    }
  }

  /** Before trimming there is exactly one '\n'-terminated line per art line. */
  lemma AccumulatedLineCount(b: Banner, width: nat)
    requires b.Renderable(width)
    ensures Count(b.Accumulated(width), '\n') == |b.ArtLines()|
  {
    var ls := b.ComposedLines(width);
    forall i | 0 <= i < |ls|
      ensures '\n' !in ls[i]
    {
      ComposedLineNoNewline(b, i, width);
    }
    NewlinesOfJoin(ls);
  }

  lemma ComposedLineNoNewline(b: Banner, i: nat, width: nat)
    requires b.Renderable(width) && i < |b.ArtLines()|
    ensures '\n' !in b.ComposedLine(i, width)
  {
    var art := b.ArtLines()[i];
    var text := b.TextBeside(i);
    assert '\n' !in art;
    assert '\n' !in text by {
      if b.Start() <= i < b.Start() + |b.TextLines()| {
        assert text == b.TextLines()[i - b.Start()];
      }
    }
    PadRightWithout(art, b.ArtWidth(), '\n');
    PadLeftWithout(text, (width - Utf8Len(text)) / 2 + Utf8Len(text), '\n');
    var padded := PadRight(art, b.ArtWidth());
    var centred := CenterText(text, width);
    assert b.ComposedLine(i, width) == padded + Spaces(b.padding) + centred;
  }

  /**
   * The rendered banner is the accumulated text up to its last
   * non-whitespace character.
   */
  lemma RenderedIsTrimmed(b: Banner, width: nat)
    requires b.Renderable(width)
    ensures var acc := b.Accumulated(width);
      var r := b.Rendered(width);
      && acc[..|r|] == r
      && (forall k :: |r| <= k < |acc| ==> IsWhitespace(acc[k]))
      && (r == [] || !IsWhitespace(r[|r| - 1]))
  {
  }

  /** Art with no lines renders to the empty string, whatever the text at the top. */
  lemma EmptyArtRendersEmpty(b: Banner, width: nat)
    requires b.asciiArt == [] && b.Renderable(width)
    ensures b.Rendered(width) == []
  {
    assert b.ComposedLines(width) == [];
  }
}
