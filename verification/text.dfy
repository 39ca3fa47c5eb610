/**
 * The string transformations the proposal presenter applies (main.go):
 * truncation of titles and contents for the listing, and the conversion of
 * a proposal's content into markup with line breaks.
 *
 * Strings are sequences of single units; see README for the byte/rune caveat.
 */
module Text {

  /** Number of units `truncate` keeps from a long string. */
  const TruncateLimit: nat := 50
  /** Marker appended to a truncated string. */
  const Ellipsis := "..."
  /** Markup that replaces every newline of a proposal's content. */
  const LineBreak := "<br />"

  /** `truncate`: long strings keep their first 50 units followed by "...". */
  function Truncate(s: string): (r: string)
    ensures |s| <= TruncateLimit ==> r == s
    ensures |s| > TruncateLimit ==> |r| == TruncateLimit + |Ellipsis|
    ensures |r| <= TruncateLimit + |Ellipsis|
    ensures |s| > TruncateLimit ==> r[..TruncateLimit] == s[..TruncateLimit] && r[TruncateLimit..] == Ellipsis
  {
    if |s| > TruncateLimit then s[..TruncateLimit] + Ellipsis else s
  }

  /** Truncating an already truncated string changes nothing. */
  lemma TruncateIdempotent(s: string)
    ensures Truncate(Truncate(s)) == Truncate(s)
  {
  }

  /** Whatever the length, the kept part of the result is a prefix of the input. */
  lemma TruncateKeepsPrefix(s: string, k: nat)
    requires k <= TruncateLimit && k <= |s|
    ensures k <= |Truncate(s)| && Truncate(s)[..k] == s[..k]
  {
  }

  /** The boundary cases: the empty string, exactly 50 units, and 51 units. */
  lemma TruncateBoundaries(s: string)
    ensures Truncate("") == ""
    ensures |s| == TruncateLimit ==> Truncate(s) == s
    ensures |s| == TruncateLimit + 1 ==> |Truncate(s)| == 53 && Truncate(s) == s[..50] + "..."
  {
  }

  /** Bytes a unit takes in UTF-8. */
  function Utf8Width(ch: char): (w: nat)
    ensures 1 <= w <= 4
    ensures ch as int < 0x80 <==> w == 1
  {
    if ch as int < 0x80 then 1
    else if ch as int < 0x800 then 2
    else if ch as int < 0x1_0000 then 3
    else 4
  }

  /** Go's `len` of a string: its length in UTF-8 bytes. */
  function Utf8Length(s: string): (n: nat)
    ensures |s| <= n <= 4 * |s|
  {
    if s == [] then 0 else Utf8Length(s[..|s| - 1]) + Utf8Width(s[|s| - 1])
  }

  /** A string whose units all take `w` bytes takes `w` bytes per unit. */
  lemma {:induction false} Utf8LengthUniform(s: string, w: nat)
    requires forall k :: 0 <= k < |s| ==> Utf8Width(s[k]) == w
    ensures Utf8Length(s) == w * |s|
  {
    if s != [] {
      Utf8LengthUniform(s[..|s| - 1], w);
    }
  }

  /**
   * `truncate` exactly as written: the length test counts bytes while
   * `%.50s` keeps up to 50 runes.
   */
  function TruncateAsWritten(s: string): (r: string)
    ensures Utf8Length(s) <= TruncateLimit ==> r == s
    ensures Utf8Length(s) > TruncateLimit ==> |r| >= |Ellipsis| && r[|r| - |Ellipsis|..] == Ellipsis
  {
    if Utf8Length(s) > TruncateLimit then s[..if |s| < TruncateLimit then |s| else TruncateLimit] + Ellipsis
    else s
  }

  /** On ASCII text the code as written and `Truncate` agree. */
  lemma AsWrittenAgreesOnAscii(s: string)
    requires forall k :: 0 <= k < |s| ==> s[k] as int < 0x80
    ensures TruncateAsWritten(s) == Truncate(s)
  {
    Utf8LengthUniform(s, 1);
  }

  /**
   * A string of 26 to 50 two-byte units (such as 'é') is not cut at all, yet
   * the code as written appends the ellipsis to it.
   */
  lemma EllipsisWithoutCut(s: string)
    requires forall k :: 0 <= k < |s| ==> Utf8Width(s[k]) == 2
    requires 26 <= |s| <= TruncateLimit
    ensures Truncate(s) == s
    ensures TruncateAsWritten(s) == s + Ellipsis
  {
    Utf8LengthUniform(s, 2);
    assert s[..|s|] == s;
  }

  /** `strings.Replace(s, [c], "", -1)`: every occurrence of `c` deleted, everything else kept. */
  function RemoveAll(s: string, c: char): (r: string)
    ensures c !in r
    ensures forall x :: x in r <==> x in s && x != c
    ensures |r| <= |s|
  {
    if s == [] then []
    else
      assert s == [s[0]] + s[1..];
      (if s[0] == c then [] else [s[0]]) + RemoveAll(s[1..], c)
  }

  /** Every unit other than `c` is kept as often as it occurs. */
  lemma {:induction false} RemoveAllCounts(s: string, c: char)
    ensures multiset(RemoveAll(s, c)) == multiset(s)[c := 0]
  {
    if s != [] {
      assert s == [s[0]] + s[1..];
      RemoveAllCounts(s[1..], c);
    }
  }

  /** Removal works piece by piece: the order of the kept units is that of the input. */
  lemma {:induction false} RemoveAllAppend(a: string, b: string, c: char)
    ensures RemoveAll(a + b, c) == RemoveAll(a, c) + RemoveAll(b, c)
  {
    if a != [] {
      assert (a + b)[1..] == a[1..] + b;
      RemoveAllAppend(a[1..], b, c);
    } else {
      assert a + b == b;
    }
  }

  /** `strings.Replace(s, [c], rep, -1)`: every occurrence of `c` becomes `rep`. */
  function ReplaceChar(s: string, c: char, rep: string): (r: string)
    ensures c !in rep ==> c !in r
    ensures forall x :: x !in rep ==> (x in r <==> x in s && x != c)
  {
    if s == [] then []
    else
      assert s == [s[0]] + s[1..];
      (if s[0] == c then rep else [s[0]]) + ReplaceChar(s[1..], c, rep)
  }

  /** Replacement works piece by piece. */
  lemma {:induction false} ReplaceCharAppend(a: string, b: string, c: char, rep: string)
    ensures ReplaceChar(a + b, c, rep) == ReplaceChar(a, c, rep) + ReplaceChar(b, c, rep)
  {
    if a != [] {
      assert (a + b)[1..] == a[1..] + b;
      ReplaceCharAppend(a[1..], b, c, rep);
    } else {
      assert a + b == b;
    }
  }

  /**
   * The content shown for a proposal: carriage returns are deleted first,
   * then every newline becomes a line-break tag.
   */
  function FormatContent(s: string): (r: string)
    ensures '\r' !in r && '\n' !in r
    ensures forall x :: x !in LineBreak ==> (x in r <==> x in s && x != '\r' && x != '\n')
  {
    ReplaceChar(RemoveAll(s, '\r'), '\n', LineBreak)
  }

  /** Formatting works piece by piece. */
  lemma FormatContentAppend(a: string, b: string)
    ensures FormatContent(a + b) == FormatContent(a) + FormatContent(b)
  {
    RemoveAllAppend(a, b, '\r');
    ReplaceCharAppend(RemoveAll(a, '\r'), RemoveAll(b, '\r'), '\n', LineBreak);
  }

  /** A CRLF pair collapses to a single line break, not two. */
  lemma CrlfIsOneBreak(a: string, b: string)
    ensures FormatContent(a + "\r\n" + b) == FormatContent(a) + LineBreak + FormatContent(b)
  {
    FormatContentAppend(a + "\r\n", b);
    FormatContentAppend(a, "\r\n");
    assert RemoveAll("\r\n", '\r') == "\n" by {
      assert "\r\n"[1..] == "\n";
      assert "\n"[1..] == "";
    }
    assert ReplaceChar("\n", '\n', LineBreak) == LineBreak by {
      assert "\n"[1..] == "";
    }
  }

  /** A carriage return on its own leaves no trace. */
  lemma LoneCarriageReturnVanishes(a: string, b: string)
    ensures FormatContent(a + "\r" + b) == FormatContent(a + b)
  {
    var cr := "\r";
    assert RemoveAll(cr, '\r') == [] by {
      assert cr[1..] == [];
    }
    calc {
      RemoveAll(a + cr + b, '\r');
      { RemoveAllAppend(a + cr, b, '\r'); }
      RemoveAll(a + cr, '\r') + RemoveAll(b, '\r');
      { RemoveAllAppend(a, cr, '\r'); }
      RemoveAll(a, '\r') + RemoveAll(b, '\r');
      { RemoveAllAppend(a, b, '\r'); }
      RemoveAll(a + b, '\r');
    }
  }

  /** The worked case "a\r\nb", shown as "a<br />b", for any two plain units. */
  lemma CrlfExample(x: char, y: char)
    requires x != '\r' && x != '\n' && y != '\r' && y != '\n'
    ensures FormatContent([x, '\r', '\n', y]) == [x] + LineBreak + [y]
  {
    SingleUnitUnchanged(x);
    SingleUnitUnchanged(y);
    CrlfIsOneBreak([x], [y]);
    assert [x] + "\r\n" + [y] == [x, '\r', '\n', y];
  }

  /** A unit other than CR and LF is shown as itself. */
  lemma SingleUnitUnchanged(x: char)
    requires x != '\r' && x != '\n'
    ensures FormatContent([x]) == [x]
  {
    assert [x][1..] == [];
    assert RemoveAll([x], '\r') == [x];
    assert ReplaceChar([x], '\n', LineBreak) == [x];
  }
}
