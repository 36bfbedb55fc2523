/**
 * The pieces of Rust's `str`/`String`/`format!` behaviour that the layout
 * code relies on: `str::lines`, `str::trim_end`, `str::len` (a UTF-8 byte
 * count), the `{:<w$}` / `{:>w$}` padding of `format!` (which counts
 * characters), `str::repeat`, `str::replace` on a single character and the
 * decimal rendering of integers by `Display`.
 */
module Text {

  datatype Option<T> = None | Some(value: T)

  // ---------------------------------------------------------------------
  // Characters

  predicate IsAscii(c: char) { c as int < 0x80 }

  predicate AllAscii(s: seq<char>) { forall i :: 0 <= i < |s| ==> IsAscii(s[i]) }

  /** Number of bytes `c` takes in UTF-8. */
  function Utf8Width(c: char): (n: nat)
    ensures 1 <= n <= 4
    ensures n == 1 <==> IsAscii(c)
  {
    if c as int < 0x80 then 1
    else if c as int < 0x800 then 2
    else if c as int < 0x1_0000 then 3
    else 4
  }

  /** Rust's `str::len`: the length of `s` in UTF-8 bytes. */
  function Utf8Len(s: seq<char>): (n: nat)
    ensures |s| <= n <= 4 * |s|
    ensures n == |s| <==> AllAscii(s)
  {
    if s == [] then 0
    else
      var init := s[..|s| - 1];
      var n := Utf8Len(init) + Utf8Width(s[|s| - 1]);
      assert AllAscii(s) <==> AllAscii(init) && IsAscii(s[|s| - 1]) by {
        assert forall i :: 0 <= i < |init| ==> init[i] == s[i];
      }
      n
  }

  /**
   * Rust's `char::is_whitespace`: the Unicode White_Space property, which is
   * what `str::trim_end` removes.
   */
  predicate IsWhitespace(c: char)
  {
    ('\t' <= c <= '\r') || c == ' ' || c == '\U{0085}' || c == '\U{00A0}'
    || c == '\U{1680}' || ('\U{2000}' <= c <= '\U{200A}') || c == '\U{2028}'
    || c == '\U{2029}' || c == '\U{202F}' || c == '\U{205F}' || c == '\U{3000}'
  }

  /** First letter of `c.to_uppercase()`, for ASCII letters; any other character is kept. */
  function ToUpper(c: char): (u: char)
    ensures IsAscii(u) <==> IsAscii(c)
    ensures 'a' <= c <= 'z' ==> 'A' <= u <= 'Z' && u as int == c as int - 32
    ensures !('a' <= c <= 'z') ==> u == c
  {
    if 'a' <= c <= 'z' then (c as int - 32) as char else c
  }

  /** First letter of `c.to_lowercase()`, for ASCII letters; any other character is kept. */
  function ToLower(c: char): (l: char)
    ensures IsAscii(l) <==> IsAscii(c)
    ensures 'A' <= c <= 'Z' ==> 'a' <= l <= 'z' && l as int == c as int + 32
    ensures !('A' <= c <= 'Z') ==> l == c
  {
    if 'A' <= c <= 'Z' then (c as int + 32) as char else c
  }

  /** Upper-casing a character does not change what it lower-cases to. */
  lemma LowerOfUpper(c: char)
    ensures ToLower(ToUpper(c)) == ToLower(c)
  {
  }

  // ---------------------------------------------------------------------
  // Repetition and padding

  /** `str::repeat` on a one-character string. */
  function Repeat(c: char, n: nat): (r: seq<char>)
    ensures |r| == n
    ensures forall i :: 0 <= i < n ==> r[i] == c
  {
    seq(n, _ => c)
  }

  function Spaces(n: nat): seq<char> { Repeat(' ', n) }

  /** `format!("{:<w$}", s)`: append spaces until `s` has `w` characters. */
  function PadRight(s: seq<char>, w: nat): (r: seq<char>)
    ensures |r| == if |s| < w then w else |s|
    ensures r[..|s|] == s
    ensures forall i :: |s| <= i < |r| ==> r[i] == ' '
  {
    if |s| < w then s + Spaces(w - |s|) else s
  }

  /** Padding on the right adds only spaces. */
  lemma PadRightWithout(s: seq<char>, w: nat, c: char)
    requires c != ' ' && c !in s
    ensures c !in PadRight(s, w)
  {
    if |s| < w {
      assert PadRight(s, w) == s + Spaces(w - |s|);
    }
  }

  /** `format!("{:>w$}", s)`: prepend spaces until `s` has `w` characters. */
  function PadLeft(s: seq<char>, w: nat): (r: seq<char>)
    ensures |r| == if |s| < w then w else |s|
    ensures r[|r| - |s|..] == s
    ensures forall i :: 0 <= i < |r| - |s| ==> r[i] == ' '
  {
    if |s| < w then Spaces(w - |s|) + s else s
  }

  /** Padding on the left adds only spaces. */
  lemma PadLeftWithout(s: seq<char>, w: nat, c: char)
    requires c != ' ' && c !in s
    ensures c !in PadLeft(s, w)
  {
    if |s| < w {
      assert PadLeft(s, w) == Spaces(w - |s|) + s;
    }
  }

  /** `s.replace(a, b)` for one-character patterns. */
  function ReplaceChar(s: seq<char>, a: char, b: char): (r: seq<char>)
    ensures |r| == |s|
    ensures forall i :: 0 <= i < |s| ==> r[i] == (if s[i] == a then b else s[i])
  {
    seq(|s|, i requires 0 <= i < |s| => if s[i] == a then b else s[i])
  }

  // ---------------------------------------------------------------------
  // Lines

  /** Position of the first `c` in `s`, or `|s|` when there is none. */
  function IndexOf(s: seq<char>, c: char): (k: nat)
    ensures k <= |s|
    ensures k < |s| ==> s[k] == c
    ensures forall i :: 0 <= i < k ==> s[i] != c
  {
    if s == [] then 0
    else if s[0] == c then 0
    else 1 + IndexOf(s[1..], c)
  }

  /** The first `c` is at `k` when `s[k]` is `c` and nothing before it is. */
  lemma {:induction false} IndexOfAt(s: seq<char>, c: char, k: nat)
    requires k < |s| && s[k] == c
    requires forall i :: 0 <= i < k ==> s[i] != c
    ensures IndexOf(s, c) == k
    decreases k
  {
    if k > 0 {
      IndexOfAt(s[1..], c, k - 1);
    }
  }

  /** A line terminated by "\r\n" loses its '\r'. */
  function StripCr(l: seq<char>): seq<char>
  {
    if |l| > 0 && l[|l| - 1] == '\r' then l[..|l| - 1] else l
  }

  /**
   * Rust's `str::lines`: split after each '\n', drop the '\n' and a '\r'
   * right before it; the final line ending is optional, so no empty line
   * follows a trailing '\n', and the empty string has no lines.
   */
  function Lines(s: seq<char>): (ls: seq<seq<char>>)
    ensures forall i :: 0 <= i < |ls| ==> '\n' !in ls[i]
    ensures s != [] <==> ls != []
    decreases |s|
  {
    if s == [] then []
    else
      var k := IndexOf(s, '\n');
      if k == |s| then [s]
      else [StripCr(s[..k])] + Lines(s[k + 1..])
  }

  /** Every line followed by '\n', as a `String` grown by `push_str(line); push('\n')`. */
  function JoinLines(ls: seq<seq<char>>): seq<char>
  {
    if ls == [] then [] else JoinLines(ls[..|ls| - 1]) + ls[|ls| - 1] + ['\n']
  }

  /** Appending one more line to a joined prefix. */
  lemma JoinLinesSnoc(ls: seq<seq<char>>, i: nat)
    requires i < |ls|
    ensures JoinLines(ls[..i + 1]) == JoinLines(ls[..i]) + ls[i] + ['\n']
  {
    assert ls[..i + 1][..i] == ls[..i];
  }

  /** A single line joined is that line and its '\n'. */
  lemma JoinLinesOne(l: seq<char>)
    ensures JoinLines([l]) == l + ['\n']
  {
    assert [l][..0] == [];
    assert [] + l == l;
  }

  /** A line that `Lines` gives back unchanged. */
  predicate PlainLine(l: seq<char>)
  {
    '\n' !in l && (l == [] || l[|l| - 1] != '\r')
  }

  lemma {:induction false} JoinLinesCons(l: seq<char>, ls: seq<seq<char>>)
    ensures JoinLines([l] + ls) == l + ['\n'] + JoinLines(ls)
    decreases |ls|
  {
    if ls == [] {
      assert [l] + ls == [l];
      assert JoinLines([l]) == JoinLines([]) + l + ['\n'];
    } else {
      var all := [l] + ls;
      assert all[..|all| - 1] == [l] + ls[..|ls| - 1];
      JoinLinesCons(l, ls[..|ls| - 1]);
    }
  }

  /** A line '\n' rest splits into that line and the lines of the rest. */
  lemma LinesCons(l: seq<char>, rest: seq<char>)
    requires PlainLine(l)
    ensures Lines(l + ['\n'] + rest) == [l] + Lines(rest)
  {
    var s := l + ['\n'] + rest;
    SplitConcat(l, ['\n'] + rest);
    ConcatAssoc(l, ['\n'], rest);
    forall i | 0 <= i < |l|
      ensures s[i] != '\n'
    {
      assert s[i] == l[i];
    }
    IndexOfAt(s, '\n', |l|);
    assert s[|l| + 1..] == (['\n'] + rest)[1..] == rest;
    assert StripCr(l) == l;
  }

  /**
   * Joining plain lines and a final unterminated piece, then splitting with
   * `Lines`, gives the lines back (and the piece, when it is not empty).
   */
  lemma {:induction false} LinesOfJoin(ls: seq<seq<char>>, tail: seq<char>)
    requires forall i :: 0 <= i < |ls| ==> PlainLine(ls[i])
    requires '\n' !in tail
    ensures Lines(JoinLines(ls) + tail) == ls + (if tail == [] then [] else [tail])
    decreases |ls|
  {
    if ls == [] {
      assert JoinLines(ls) + tail == tail;
      if tail != [] {
        assert IndexOf(tail, '\n') == |tail|;
      }
    } else {
      var rest := ls[1..];
      assert ls == [ls[0]] + rest;
      JoinLinesCons(ls[0], rest);
      assert JoinLines(ls) + tail == ls[0] + ['\n'] + (JoinLines(rest) + tail);
      LinesCons(ls[0], JoinLines(rest) + tail);
      LinesOfJoin(rest, tail);
    }
  }

  /** Number of occurrences of `c` in `s`. */
  function Count(s: seq<char>, c: char): nat
  {
    if s == [] then 0 else Count(s[..|s| - 1], c) + (if s[|s| - 1] == c then 1 else 0)
  }

  lemma {:induction false} CountAppend(a: seq<char>, b: seq<char>, c: char)
    ensures Count(a + b, c) == Count(a, c) + Count(b, c)
    decreases |b|
  {
    if b == [] {
      assert a + b == a;
    } else {
      assert (a + b)[..|a + b| - 1] == a + b[..|b| - 1];
      CountAppend(a, b[..|b| - 1], c);
    }
  }

  lemma {:induction false} CountAbsent(s: seq<char>, c: char)
    requires c !in s
    ensures Count(s, c) == 0
    decreases |s|
  {
    if s != [] {
      CountAbsent(s[..|s| - 1], c);
    }
  }

  /** Joining lines that hold no '\n' yields exactly one '\n' per line. */
  lemma {:induction false} NewlinesOfJoin(ls: seq<seq<char>>)
    requires forall i :: 0 <= i < |ls| ==> '\n' !in ls[i]
    ensures Count(JoinLines(ls), '\n') == |ls|
    decreases |ls|
  {
    if ls != [] {
      var init := ls[..|ls| - 1];
      NewlinesOfJoin(init);
      CountAppend(JoinLines(init), ls[|ls| - 1], '\n');
      CountAppend(JoinLines(init) + ls[|ls| - 1], ['\n'], '\n');
      CountAbsent(ls[|ls| - 1], '\n');
      assert Count(['\n'], '\n') == Count([], '\n') + 1;
    }
  }

  /** The length of the longest line in UTF-8 bytes, or 0 when there are no lines. */
  function MaxWidth(ls: seq<seq<char>>): (m: nat)
    ensures forall i :: 0 <= i < |ls| ==> Utf8Len(ls[i]) <= m
    ensures ls == [] ==> m == 0
    ensures ls != [] ==> exists i :: 0 <= i < |ls| && Utf8Len(ls[i]) == m
  {
    if ls == [] then 0
    else
      var init := ls[..|ls| - 1];
      var m := MaxWidth(init);
      var w := Utf8Len(ls[|ls| - 1]);
      assert forall i :: 0 <= i < |init| ==> ls[i] == init[i];
      if m < w then w else m
  }

  // ---------------------------------------------------------------------
  // Trimming

  /**
   * Rust's `str::trim_end`: the longest prefix of `s` that does not end in
   * whitespace; everything cut off is whitespace.
   */
  function TrimEnd(s: seq<char>): (r: seq<char>)
    ensures r <= s
    ensures forall i :: |r| <= i < |s| ==> IsWhitespace(s[i])
    ensures r == [] || !IsWhitespace(r[|r| - 1])
  {
    if s == [] then []
    else if IsWhitespace(s[|s| - 1]) then TrimEnd(s[..|s| - 1])
    else s
  }

  /** Trimming a string that is whitespace throughout leaves nothing. */
  lemma TrimEndAllWhitespace(s: seq<char>)
    requires forall i :: 0 <= i < |s| ==> IsWhitespace(s[i])
    ensures TrimEnd(s) == []
  {
  }

  // ---------------------------------------------------------------------
  // Decimal numbers

  predicate IsDigit(c: char) { '0' <= c <= '9' }

  predicate AllDigits(s: seq<char>) { forall i :: 0 <= i < |s| ==> IsDigit(s[i]) }

  function DigitChar(d: nat): (c: char)
    requires d < 10
    ensures IsDigit(c)
  {
    ('0' as int + d) as char
  }

  function DigitValue(c: char): (d: nat)
    requires IsDigit(c)
    ensures d < 10
  {
    c as int - '0' as int
  }

  /** The decimal rendering of `n` by `Display`: no sign, no leading zeros. */
  function Dec(n: nat): (s: seq<char>)
    ensures 1 <= |s| && AllDigits(s)
    ensures |s| > 1 ==> s[0] != '0'
    decreases n
  {
    if n < 10 then [DigitChar(n)] else Dec(n / 10) + [DigitChar(n % 10)]
  }

  /** The number a string of decimal digits denotes. */
  function DigitsValue(s: seq<char>): nat
    requires AllDigits(s)
  {
    if s == [] then 0 else 10 * DigitsValue(s[..|s| - 1]) + DigitValue(s[|s| - 1])
  }

  /** Reading back a rendered number gives the number. */
  lemma {:induction false} DecRoundTrip(n: nat)
    ensures DigitsValue(Dec(n)) == n
    decreases n
  {
    if n >= 10 {
      DecRoundTrip(n / 10);
      var s := Dec(n);
      assert s[..|s| - 1] == Dec(n / 10);
    }
  }

  /** Numbers below 256 take one to three digits. */
  lemma DecLengthByte(n: nat)
    requires n < 256
    ensures |Dec(n)| <= 3
  {
    if n >= 10 {
      assert Dec(n) == Dec(n / 10) + [DigitChar(n % 10)];
      if n / 10 >= 10 {
        assert Dec(n / 10) == Dec(n / 100) + [DigitChar((n / 10) % 10)];
      }
    }
  }

  /** Number of leading digits of `s`. */
  function DigitRun(s: seq<char>): (k: nat)
    ensures k <= |s|
    ensures AllDigits(s[..k])
    ensures k < |s| ==> !IsDigit(s[k])
  {
    if s == [] || !IsDigit(s[0]) then 0
    else
      var k := 1 + DigitRun(s[1..]);
      assert s[..k] == [s[0]] + s[1..][..k - 1];
      k
  }

  /**
   * Reads a non-empty run of digits followed by `terminator` and returns its
   * value and what follows the terminator.
   */
  function ParseNumber(s: seq<char>, terminator: char): Option<(nat, seq<char>)>
  {
    var k := DigitRun(s);
    if 0 < k < |s| && s[k] == terminator then Some((DigitsValue(s[..k]), s[k + 1..]))
    else None
  }

  lemma {:induction false} DigitRunOfDigits(d: seq<char>, rest: seq<char>)
    requires AllDigits(d)
    requires rest == [] || !IsDigit(rest[0])
    ensures DigitRun(d + rest) == |d|
    decreases |d|
  {
    if d != [] {
      assert (d + rest)[1..] == d[1..] + rest;
      DigitRunOfDigits(d[1..], rest);
    } else {
      assert d + rest == rest;
    }
  }

  /** `ParseNumber` reads back a number rendered by `Dec` and the terminator after it. */
  lemma ParseNumberDec(n: nat, t: char, rest: seq<char>)
    requires !IsDigit(t)
    ensures ParseNumber(Dec(n) + [t] + rest, t) == Some((n, rest))
  {
    var d := Dec(n);
    var s := d + [t] + rest;
    assert s == d + ([t] + rest);
    DigitRunOfDigits(d, [t] + rest);
    assert s[..|d|] == d;
    assert s[|d| + 1..] == rest;
    DecRoundTrip(n);
  }

  // ---------------------------------------------------------------------
  // Concatenation

  /** Concatenation is associative; stated once so that proofs can cite it. */
  lemma ConcatAssoc<T>(a: seq<T>, b: seq<T>, c: seq<T>)
    ensures a + (b + c) == (a + b) + c
  {
  }

  /** `x + p + e + l`, with the last three grouped together. */
  lemma Regroup<T>(x: seq<T>, p: seq<T>, e: seq<T>, l: seq<T>)
    ensures x + (p + e + l) == x + p + e + l
  {
    ConcatAssoc(x, p + e, l);
    ConcatAssoc(x, p, e);
  }

  /** The two halves of a concatenation are its prefix and its suffix. */
  lemma SplitConcat<T>(a: seq<T>, b: seq<T>)
    ensures (a + b)[..|a|] == a && (a + b)[|a|..] == b
  {
  }

  /** All strings one after the other, as `print!` writes them. */
  function Flatten(ss: seq<seq<char>>): seq<char>
  {
    if ss == [] then [] else Flatten(ss[..|ss| - 1]) + ss[|ss| - 1]
  }
}
