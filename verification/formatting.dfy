/**
 * The layout helpers of src/formatting.rs: centring a line in the terminal
 * width, framing text in a double-line box, and the colour chosen for each
 * character by `print_fade`. The terminal width is a parameter.
 */
module Formatting {
  import opened Text
  import opened Colors
  import opened Arithmetic

  // ---------------------------------------------------------------------
  // center_text

  /**
   * `center_text`: `(width - len) / 2` spaces of padding, where `len` is
   * the UTF-8 length of `text`, applied by right-aligning `text` in a field
   * of `padding + len` characters. `width - len` is not guarded in the
   * source, so a text longer than the terminal is excluded.
   */
  function CenterText(text: seq<char>, width: nat): (r: seq<char>)
    requires Utf8Len(text) <= width
    ensures |text| <= |r|
    ensures r[|r| - |text|..] == text
    ensures forall i :: 0 <= i < |r| - |text| ==> r[i] == ' '
    ensures |r| == (width - Utf8Len(text)) / 2 + Utf8Len(text)
    ensures AllAscii(text) ==> |r| == (width - |text|) / 2 + |text|
  {
    var len := Utf8Len(text);
    var padding := (width - len) / 2;
    PadLeft(text, padding + len)
  }

  /**
   * For ASCII text the left margin is half the free space, rounded down:
   * the odd column goes to the right, and the line fits the terminal.
   */
  lemma CenterTextBalanced(text: seq<char>, width: nat)
    requires |text| <= width && AllAscii(text)
    ensures var left := |CenterText(text, width)| - |text|;
      2 * left <= width - |text| <= 2 * left + 1
    ensures |CenterText(text, width)| <= width
  {
  }

  /** The empty line centres to nothing but spaces, half the width of them. */
  lemma CenterEmpty(width: nat)
    ensures CenterText([], width) == Spaces(width / 2)
  {
  }

  // ---------------------------------------------------------------------
  // box_text

  const TopLeft: char := '\U{2554}'      // ╔
  const TopRight: char := '\U{2557}'     // ╗
  const BottomLeft: char := '\U{255A}'   // ╚
  const BottomRight: char := '\U{255D}'  // ╝
  const Horizontal: char := '\U{2550}'   // ═
  const Vertical: char := '\U{2551}'     // ║

  /** The top line of a box whose content is `width` wide. */
  function TopBorder(width: nat): seq<char>
  {
    [TopLeft] + Repeat(Horizontal, width + 2) + [TopRight]
  }

  /** The bottom line: the top line with its two corners replaced. */
  function BottomBorder(width: nat): seq<char>
  {
    ReplaceChar(ReplaceChar(TopBorder(width), TopLeft, BottomLeft), TopRight, BottomRight)
  }

  /** One content line: `format!("║ {:<width$} ║", line)`. */
  function BoxRow(line: seq<char>, width: nat): seq<char>
  {
    [Vertical, ' '] + PadRight(line, width) + [' ', Vertical]
  }

  function BoxRows(lines: seq<seq<char>>, width: nat): (rows: seq<seq<char>>)
    ensures |rows| == |lines|
    ensures forall i :: 0 <= i < |lines| ==> rows[i] == BoxRow(lines[i], width)
  {
    seq(|lines|, i requires 0 <= i < |lines| => BoxRow(lines[i], width))
  }

  /** What `box_text` returns: top border, one row per line of `text`, bottom border. */
  function Boxed(text: seq<char>): seq<char>
  {
    var lines := Lines(text);
    var width := MaxWidth(lines);
    JoinLines([TopBorder(width)] + BoxRows(lines, width)) + BottomBorder(width)
  }

  /** `box_text`: grows the result line by line, as the source does. */
  method BoxText(text: seq<char>) returns (result: seq<char>)
    ensures result == Boxed(text)
  {
    var lines := Lines(text);
    var maxLength := MaxWidth(lines);
    var topBottom := TopBorder(maxLength);
    ghost var rows := BoxRows(lines, maxLength);
    result := topBottom + ['\n'];
    for i := 0 to |lines|
      invariant result == topBottom + ['\n'] + JoinLines(rows[..i])
    {
      var row := BoxRow(lines[i], maxLength);
      BoxedStep(topBottom + ['\n'], lines, maxLength, i);
      result := result + row + ['\n'];
    }
    BoxedFinish(text);
    result := result + BottomBorder(maxLength);
  }

  /** Row `i` of the box follows the border and the rows before it. */
  lemma BoxedStep(head: seq<char>, lines: seq<seq<char>>, width: nat, i: nat)
    requires i < |lines|
    ensures var rows := BoxRows(lines, width);
      head + JoinLines(rows[..i + 1]) == head + JoinLines(rows[..i]) + BoxRow(lines[i], width) + ['\n']
  {
    var rows := BoxRows(lines, width);
    JoinLinesSnoc(rows, i);
    ConcatAssoc(head, JoinLines(rows[..i]), rows[i]);
    ConcatAssoc(head, JoinLines(rows[..i]) + rows[i], ['\n']);
  }

  /** After the top border and every row, only the bottom border is missing. */
  lemma BoxedFinish(text: seq<char>)
    ensures var lines := Lines(text);
      var width := MaxWidth(lines);
      var rows := BoxRows(lines, width);
      Boxed(text) == TopBorder(width) + ['\n'] + JoinLines(rows[..|lines|]) + BottomBorder(width)
  {
    var lines := Lines(text);
    var width := MaxWidth(lines);
    var rows := BoxRows(lines, width);
    assert rows[..|lines|] == rows;
    JoinLinesCons(TopBorder(width), rows);
  }

  /** The bottom border is the top border with `╚` and `╝` for corners. */
  lemma BottomBorderShape(width: nat)
    ensures BottomBorder(width) == [BottomLeft] + Repeat(Horizontal, width + 2) + [BottomRight]
  {
    var top := TopBorder(width);
    var bottom := [BottomLeft] + Repeat(Horizontal, width + 2) + [BottomRight];
    assert |BottomBorder(width)| == |bottom|;
    forall i | 0 <= i < |bottom|
      ensures BottomBorder(width)[i] == bottom[i]
    {
      if 0 < i < |bottom| - 1 {
        assert top[i] == Horizontal;
      }
    }
  }

  /** A row is `║ `, the line, spaces up to the box width, ` ║`. */
  lemma BoxRowShape(line: seq<char>, width: nat)
    requires Utf8Len(line) <= width
    ensures var row := BoxRow(line, width);
      && |row| == width + 4
      && row[..2] == [Vertical, ' ']
      && row[2..2 + |line|] == line
      && (forall i :: 2 + |line| <= i < |row| - 1 ==> row[i] == ' ')
      && row[|row| - 1] == Vertical
  {
    var row := BoxRow(line, width);
    var padded := PadRight(line, width);
    var head: seq<char> := [Vertical, ' '];
    SplitConcat(head + padded, [' ', Vertical]);
    SplitConcat(head, padded);
    assert row[2..2 + |line|] == (head + padded)[2..][..|line|] == padded[..|line|];
    forall i | 2 + |line| <= i < |row| - 1
      ensures row[i] == ' '
    {
      if i < 2 + width {
        assert row[i] == padded[i - 2];
      }
    }
  }

  /**
   * Every row of the box, like its borders, is `width + 4` characters long:
   * the width is counted in UTF-8 bytes, the padding in characters, so a
   * line with multi-byte characters is padded past its own byte length.
   */
  lemma BoxRowsEqualLength(text: seq<char>)
    ensures var lines := Lines(text);
      var width := MaxWidth(lines);
      && |TopBorder(width)| == |BottomBorder(width)| == width + 4
      && forall i :: 0 <= i < |lines| ==> |BoxRow(lines[i], width)| == width + 4
  {
    var lines := Lines(text);
    var width := MaxWidth(lines);
    forall i | 0 <= i < |lines|
      ensures |BoxRow(lines[i], width)| == width + 4
    {
      BoxRowShape(lines[i], width);
    }
    assert |TopBorder(width)| == width + 4;
  }

  /**
   * Read back line by line, the box is its top border, one row per line of
   * the input and its bottom border: `lineCount + 2` lines.
   */
  lemma BoxedLines(text: seq<char>)
    ensures var lines := Lines(text);
      var width := MaxWidth(lines);
      Lines(Boxed(text)) == [TopBorder(width)] + BoxRows(lines, width) + [BottomBorder(width)]
    ensures |Lines(Boxed(text))| == |Lines(text)| + 2
  {
    var lines := Lines(text);
    var width := MaxWidth(lines);
    var rows := BoxRows(lines, width);
    var all := [TopBorder(width)] + rows;
    forall i | 0 <= i < |all|
      ensures PlainLine(all[i])
    {
      if i == 0 {
        BorderPlain(width);
      } else {
        BoxRowPlain(lines[i - 1], width);
      }
    }
    BorderPlain(width);
    LinesOfJoin(all, BottomBorder(width));
  }

  lemma BorderPlain(width: nat)
    ensures PlainLine(TopBorder(width)) && PlainLine(BottomBorder(width))
  {
    BottomBorderShape(width);
  }

  lemma BoxRowPlain(line: seq<char>, width: nat)
    requires '\n' !in line
    ensures PlainLine(BoxRow(line, width))
  {
    var padded := PadRight(line, width);
    assert forall k :: 0 <= k < |padded| ==> padded[k] != '\n' by {
      forall k | 0 <= k < |padded| ensures padded[k] != '\n' {
        if k < |line| { assert padded[k] == padded[..|line|][k] == line[k]; }
      }
    }
  }

  /** An empty text gives an empty box: `╔══╗`, a newline and `╚══╝`. */
  lemma BoxedEmpty()
    ensures Boxed([]) == [TopLeft, Horizontal, Horizontal, TopRight, '\n', BottomLeft, Horizontal, Horizontal, BottomRight]
  {
    var top := TopBorder(0);
    assert Repeat(Horizontal, 2) == [Horizontal, Horizontal];
    assert top == [TopLeft, Horizontal, Horizontal, TopRight];
    assert Lines([]) == [];
    assert [top] + BoxRows([], 0) == [top];
    assert JoinLines([top]) == top + ['\n'];
    BottomBorderShape(0);
  }

  /** Two two-letter lines give a four-line box two characters wide. */
  lemma BoxedTwoLines(text: seq<char>)
    requires text == "ab\ncd"
    ensures Lines(Boxed(text)) == [
      [TopLeft, Horizontal, Horizontal, Horizontal, Horizontal, TopRight],
      [Vertical, ' ', 'a', 'b', ' ', Vertical],
      [Vertical, ' ', 'c', 'd', ' ', Vertical],
      [BottomLeft, Horizontal, Horizontal, Horizontal, Horizontal, BottomRight]]
  {
    TwoLinesSplit(text);
    BoxedLines(text);
    BordersTwoWide();
    RowsTwoWide();
  }

  lemma BordersTwoWide()
    ensures TopBorder(2) == [TopLeft, Horizontal, Horizontal, Horizontal, Horizontal, TopRight]
    ensures BottomBorder(2) == [BottomLeft, Horizontal, Horizontal, Horizontal, Horizontal, BottomRight]
  {
    assert Repeat(Horizontal, 4) == [Horizontal, Horizontal, Horizontal, Horizontal];
    BottomBorderShape(2);
  }

  lemma RowsTwoWide()
    ensures BoxRows(["ab", "cd"], 2) == [[Vertical, ' ', 'a', 'b', ' ', Vertical], [Vertical, ' ', 'c', 'd', ' ', Vertical]]
  {
    var lines := ["ab", "cd"];
    assert BoxRow(lines[0], 2) == [Vertical, ' ', 'a', 'b', ' ', Vertical];
    assert BoxRow(lines[1], 2) == [Vertical, ' ', 'c', 'd', ' ', Vertical];
  }

  lemma TwoLinesSplit(text: seq<char>)
    requires text == "ab\ncd"
    ensures Lines(text) == ["ab", "cd"]
    ensures MaxWidth(["ab", "cd"]) == 2
  {
    IndexOfAt(text, '\n', 2);
    assert text[..2] == "ab" && text[3..] == "cd";
    assert IndexOf("cd", '\n') == 2;
    assert ["ab", "cd"][..1] == ["ab"];
    assert ["ab"][..0] == [];
  }

  // ---------------------------------------------------------------------
  // print_fade

  /** The colour index `print_fade` gives the character at `i`: `i * colorCount / charCount`. */
  function FadeIndex(i: nat, colorCount: nat, charCount: nat): (k: nat)
    requires i < charCount
    ensures colorCount > 0 ==> k < colorCount
  {
    var k := i * colorCount / charCount;
    assert colorCount > 0 ==> k < colorCount by {
      if colorCount > 0 {
        MulLeft(colorCount, i, charCount - 1);
        DivBelow(i * colorCount, charCount, colorCount);
      }
    }
    k
  }

  /** Later characters never get an earlier colour. */
  lemma FadeIndexMonotone(i: nat, j: nat, colorCount: nat, charCount: nat)
    requires i <= j < charCount
    ensures FadeIndex(i, colorCount, charCount) <= FadeIndex(j, colorCount, charCount)
  {
    MulLeft(colorCount, i, j);
    DivMonotone(i * colorCount, j * colorCount, charCount);
  }

  /**
   * The first character takes the first colour; when there are no more
   * colours than characters the last character takes the last colour, so
   * the fade runs over the whole palette.
   */
  lemma FadeIndexEnds(colorCount: nat, charCount: nat)
    requires 0 < colorCount <= charCount
    ensures FadeIndex(0, colorCount, charCount) == 0
    ensures FadeIndex(charCount - 1, colorCount, charCount) == colorCount - 1
  {
    var n := charCount;
    var c := colorCount;
    LastRow(n, c);
    DivSplit(n, c - 1, n - c);
  }

  /** The colour of every character, in order. */
  function FadeColors(text: seq<char>, colors: seq<Color>): (cs: seq<Color>)
    requires |text| > 0 ==> |colors| > 0
    ensures |cs| == |text|
    ensures forall i :: 0 <= i < |text| ==> cs[i] == colors[FadeIndex(i, |colors|, |text|)]
  {
    seq(|text|, i requires 0 <= i < |text| => colors[FadeIndex(i, |colors|, |text|)])
  }

  /**
   * `print_fade`, returning what it writes: each character after the
   * escape of its colour, then `RESET`. An empty colour list with a
   * non-empty text indexes out of bounds in the source and is excluded.
   */
  method PrintFade(text: seq<char>, colors: seq<Color>) returns (out: seq<char>)
    requires |text| > 0 ==> |colors| > 0
    ensures out == Paint(text, FadeColors(text, colors)) + Reset
  {
    ghost var cs := FadeColors(text, colors);
    var colorCount := |colors|;
    out := [];
    for i := 0 to |text|
      invariant out == Paint(text[..i], cs[..i])
    {
      var colorIndex := (i * colorCount) / |text|;
      assert colorIndex == FadeIndex(i, colorCount, |text|);
      PaintSnoc(text, cs, i);
      out := out + Escape(colors[colorIndex]) + [text[i]];
    }
    assert text[..|text|] == text && cs[..|text|] == cs;
    out := out + Reset;
  }
}
