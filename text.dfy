/**
 * The Python string operations the counter parsers and the selector logic rely on:
 * str.isspace, str.strip, str.split() (no separator), str.split(sep), str.splitlines,
 * the substring test `x in s`, str.lower on the words the link-state probe compares
 * against, and int() applied to a whitespace-free token.
 */
module Text {
  import opened Maybe

  /** Python's str.isspace() for one character. */
  predicate IsSpace(c: char) {
    ('\t' <= c <= '\r') || ('\U{1C}' <= c <= ' ') || c == '\U{85}' || c == '\U{A0}'
    || c == '\U{1680}' || ('\U{2000}' <= c <= '\U{200A}') || c == '\U{2028}'
    || c == '\U{2029}' || c == '\U{202F}' || c == '\U{205F}' || c == '\U{3000}'
  }

  /** The characters at which Python's str.splitlines() ends a line. */
  predicate IsLineBreak(c: char) {
    c == '\n' || c == '\r' || c == '\U{B}' || c == '\U{C}' || ('\U{1C}' <= c <= '\U{1E}')
    || c == '\U{85}' || c == '\U{2028}' || c == '\U{2029}'
  }

  predicate NoSpace(s: string) {
    forall i :: 0 <= i < |s| ==> !IsSpace(s[i])
  }

  predicate AllSpace(s: string) {
    forall i :: 0 <= i < |s| ==> IsSpace(s[i])
  }

  // ---------------------------------------------------------------------------
  // str.strip()

  function TrimLeft(s: string): (r: string)
    ensures |r| <= |s| && r == s[|s| - |r|..]
    ensures r == [] || !IsSpace(r[0])
    decreases |s|
  {
    if s != [] && IsSpace(s[0]) then TrimLeft(s[1..]) else s
  }

  function TrimRight(s: string): (r: string)
    ensures |r| <= |s| && r == s[..|r|]
    ensures r == [] || !IsSpace(r[|r| - 1])
    decreases |s|
  {
    if s != [] && IsSpace(s[|s| - 1]) then TrimRight(s[..|s| - 1]) else s
  }

  /** str.strip(): drop the leading and trailing whitespace. */
  function Strip(s: string): (r: string)
    ensures |r| <= |s|
    ensures r == [] || (!IsSpace(r[0]) && !IsSpace(r[|r| - 1]))
  {
    var l := TrimLeft(s);
    var r := TrimRight(l);
    r
  }

  /** A string that neither starts nor ends with whitespace is its own strip. */
  lemma StripUntrimmed(s: string)
    requires s == [] || (!IsSpace(s[0]) && !IsSpace(s[|s| - 1]))
    ensures Strip(s) == s
  {
  }

  /** Stripping twice is stripping once. */
  lemma StripIdempotent(s: string)
    ensures Strip(Strip(s)) == Strip(s)
  {
    StripUntrimmed(Strip(s));
  }

  /** Leading whitespace does not survive strip. */
  lemma {:induction false} StripLeadingSpace(pad: string, s: string)
    requires AllSpace(pad)
    ensures Strip(pad + s) == Strip(s)
    decreases |pad|
  {
    if pad != [] {
      assert (pad + s)[1..] == pad[1..] + s;
      StripLeadingSpace(pad[1..], s);
    } else {
      assert pad + s == s;
    }
  }

  /** TrimLeft drops exactly the leading whitespace: everything it removes is whitespace. */
  lemma TrimLeftDropsSpace(s: string)
    ensures AllSpace(s[..|s| - |TrimLeft(s)|])
  {
    var k := |s| - |TrimLeft(s)|;
    forall i | 0 <= i < k ensures IsSpace(s[..k][i]) {
      TrimLeftDropsSpaceAt(s, i);
    }
  }

  lemma {:induction false} TrimLeftDropsSpaceAt(s: string, i: nat)
    requires i < |s| - |TrimLeft(s)|
    ensures IsSpace(s[i])
    decreases |s|
  {
    if i > 0 {
      assert TrimLeft(s) == TrimLeft(s[1..]);
      TrimLeftDropsSpaceAt(s[1..], i - 1);
    }
  }

  /** TrimRight drops exactly the trailing whitespace: everything it removes is whitespace. */
  lemma {:induction false} TrimRightDropsSpace(s: string)
    ensures AllSpace(s[|TrimRight(s)|..])
    decreases |s|
  {
    if s != [] && IsSpace(s[|s| - 1]) {
      var init := s[..|s| - 1];
      TrimRightDropsSpace(init);
      var k := |TrimRight(s)|;
      forall i | 0 <= i < |s| - k ensures IsSpace(s[k..][i]) {
        if k + i < |s| - 1 {
          assert s[k..][i] == init[k..][i];
        }
      }
    }
  }

  /**
   * strip() removes whitespace at both ends and nothing else: the input is a blank
   * prefix, then Strip(s), then a blank suffix.
   */
  lemma StripKeepsCore(s: string)
    ensures exists pre, post :: AllSpace(pre) && AllSpace(post) && s == pre + Strip(s) + post
  {
    var l := TrimLeft(s);
    var r := TrimRight(l);
    TrimLeftDropsSpace(s);
    TrimRightDropsSpace(l);
    var pre, post := s[..|s| - |l|], l[|r|..];
    Frame(s, l, r);
    assert Strip(s) == r;
    assert AllSpace(pre) && AllSpace(post) && s == pre + r + post;
  }

  lemma Frame(s: string, l: string, r: string)
    requires |l| <= |s| && l == s[|s| - |l|..] && |r| <= |l| && r == l[..|r|]
    ensures s == s[..|s| - |l|] + r + l[|r|..]
  {
    assert l == r + l[|r|..];
  }

  lemma {:induction false} TrimLeftOfBlank(s: string)
    requires AllSpace(s)
    ensures TrimLeft(s) == []
    decreases |s|
  {
    if s != [] {
      TrimLeftOfBlank(s[1..]);
    }
  }

  /** A string strips to nothing exactly when it is all whitespace. */
  lemma StripBlank(s: string)
    ensures Strip(s) == [] <==> AllSpace(s)
  {
    if AllSpace(s) {
      TrimLeftOfBlank(s);
    } else {
      var l := TrimLeft(s);
      TrimLeftDropsSpace(s);
      assert s[..|s|] == s;
      assert l != [];
      TrimRightDropsSpace(l);
      assert l[0..] == l;
    }
  }

  lemma {:induction false} TrimRightPad(x: string, pad: string)
    requires AllSpace(pad)
    ensures TrimRight(x + pad) == TrimRight(x)
    decreases |pad|
  {
    if pad == [] {
      assert x + pad == x;
    } else {
      var init := pad[..|pad| - 1];
      assert (x + pad)[..|x + pad| - 1] == x + init;
      TrimRightPad(x, init);
    }
  }

  lemma {:induction false} TrimLeftPad(s: string, pad: string)
    requires AllSpace(pad) && !AllSpace(s)
    ensures TrimLeft(s + pad) == TrimLeft(s) + pad
    decreases |s|
  {
    if IsSpace(s[0]) {
      assert (s + pad)[1..] == s[1..] + pad;
      TrimLeftPad(s[1..], pad);
    }
  }

  /** Trailing whitespace does not survive strip. */
  lemma StripTrailingSpace(s: string, pad: string)
    requires AllSpace(pad)
    ensures Strip(s + pad) == Strip(s)
  {
    if AllSpace(s) {
      TrimLeftOfBlank(s);
      TrimLeftOfBlank(s + pad);
    } else {
      TrimLeftPad(s, pad);
      TrimRightPad(TrimLeft(s), pad);
    }
  }

  // ---------------------------------------------------------------------------
  // str.split() with no separator

  /** Length of the leading run of non-whitespace characters. */
  function WordEnd(s: string): (n: nat)
    ensures n <= |s| && (n == |s| || IsSpace(s[n]))
    ensures forall i :: 0 <= i < n ==> !IsSpace(s[i])
    decreases |s|
  {
    if s == [] || IsSpace(s[0]) then 0 else 1 + WordEnd(s[1..])
  }

  /** str.split(): the maximal runs of non-whitespace characters, in order. */
  function Words(s: string): (ws: seq<string>)
    ensures forall i :: 0 <= i < |ws| ==> ws[i] != [] && NoSpace(ws[i])
    decreases |s|
  {
    if s == [] then []
    else if IsSpace(s[0]) then Words(s[1..])
    else
      var n := WordEnd(s);
      [s[..n]] + Words(s[n..])
  }

  /** str.split() returns no words exactly when the string is all whitespace. */
  lemma {:induction false} WordsBlank(s: string)
    ensures Words(s) == [] <==> AllSpace(s)
    decreases |s|
  {
    if s != [] && IsSpace(s[0]) {
      WordsBlank(s[1..]);
      if !AllSpace(s) {
        var i :| 0 <= i < |s| && !IsSpace(s[i]);
        assert s[1..][i - 1] == s[i];
      }
    }
  }

  /** " ".join(ws) */
  function JoinWords(ws: seq<string>): string
  {
    if |ws| == 0 then ""
    else if |ws| == 1 then ws[0]
    else ws[0] + " " + JoinWords(ws[1..])
  }

  lemma {:induction false} WordEndOfWord(w: string, t: string)
    requires NoSpace(w)
    requires t == [] || IsSpace(t[0])
    ensures WordEnd(w + t) == |w|
    decreases |w|
  {
    if w != [] {
      assert (w + t)[1..] == w[1..] + t;
      WordEndOfWord(w[1..], t);
    } else {
      assert w + t == t;
    }
  }

  /** Splitting a space-joined list of words gives the words back. */
  lemma {:induction false} WordsOfJoin(ws: seq<string>)
    requires forall i :: 0 <= i < |ws| ==> ws[i] != [] && NoSpace(ws[i])
    ensures Words(JoinWords(ws)) == ws
    decreases |ws|
  {
    if |ws| == 1 {
      var w := ws[0];
      WordEndOfWord(w, []);
      assert w + [] == w;
      assert w[..|w|] == w && w[|w|..] == [];
    } else if |ws| > 1 {
      var w, rest := ws[0], JoinWords(ws[1..]);
      var s := w + " " + rest;
      assert s == w + (" " + rest);
      WordEndOfWord(w, " " + rest);
      assert s[..|w|] == w;
      assert s[|w|..] == " " + rest;
      assert (" " + rest)[1..] == rest;
      WordsOfJoin(ws[1..]);
      assert Words(s) == [w] + Words(" " + rest);
    }
  }

  /** Leading whitespace of any length and kind is skipped. */
  lemma {:induction false} WordsLeadingSpace(pad: string, s: string)
    requires AllSpace(pad)
    ensures Words(pad + s) == Words(s)
    decreases |pad|
  {
    if pad == [] {
      assert pad + s == s;
    } else {
      assert (pad + s)[0] == pad[0];
      assert (pad + s)[1..] == pad[1..] + s;
      WordsLeadingSpace(pad[1..], s);
    }
  }

  /** A word ends at the first whitespace character, however long the run after it. */
  lemma WordsOfWordThenSpace(w: string, pad: string, s: string)
    requires w != [] && NoSpace(w) && pad != [] && AllSpace(pad)
    ensures Words(w + pad + s) == [w] + Words(s)
  {
    var x := w + pad + s;
    assert x == w + (pad + s);
    WordEndOfWord(w, pad + s);
    assert x[..|w|] == w;
    assert x[|w|..] == pad + s;
    WordsLeadingSpace(pad, s);
  }

  /** Each word followed by its own run of whitespace: a line laid out in padded columns. */
  function Spaced(ws: seq<string>, gaps: seq<string>): string
    requires |gaps| == |ws|
    decreases |ws|
  {
    if ws == [] then "" else ws[0] + gaps[0] + Spaced(ws[1..], gaps[1..])
  }

  /**
   * str.split() gives back the words of a line however they are padded: any leading
   * whitespace, any non-empty whitespace between words, any trailing whitespace.
   */
  lemma {:induction false} WordsOfSpaced(lead: string, ws: seq<string>, gaps: seq<string>)
    requires AllSpace(lead) && |gaps| == |ws|
    requires forall i :: 0 <= i < |ws| ==> ws[i] != [] && NoSpace(ws[i]) && AllSpace(gaps[i])
    requires forall i :: 0 <= i < |gaps| - 1 ==> gaps[i] != []
    ensures Words(lead + Spaced(ws, gaps)) == ws
    decreases |ws|
  {
    WordsLeadingSpace(lead, Spaced(ws, gaps));
    if ws != [] {
      var w, g, rest := ws[0], gaps[0], Spaced(ws[1..], gaps[1..]);
      assert Spaced(ws, gaps) == w + g + rest;
      WordsOfSpaced([], ws[1..], gaps[1..]);
      assert [] + rest == rest;
      if g != [] {
        WordsOfWordThenSpace(w, g, rest);
      } else {
        assert |ws| == 1 && rest == [];
        assert w + g + rest == w;
        WordEndOfWord(w, []);
        assert w + [] == w && w[..|w|] == w && w[|w|..] == [];
      }
      assert ws == [w] + ws[1..];
    }
  }

  // ---------------------------------------------------------------------------
  // Splitting at separator characters: str.split(sep) and str.splitlines()

  predicate Avoids(s: string, sep: char -> bool) {
    forall j :: 0 <= j < |s| ==> !sep(s[j])
  }

  /** Index of the first character satisfying sep, or |s| when there is none. */
  function FindFirst(s: string, sep: char -> bool): (k: nat)
    ensures k <= |s| && (k < |s| ==> sep(s[k]))
    ensures forall i :: 0 <= i < k ==> !sep(s[i])
    decreases |s|
  {
    if s == [] || sep(s[0]) then 0 else 1 + FindFirst(s[1..], sep)
  }

  /** The pieces of s between the characters satisfying sep (each such character ends a piece). */
  function SplitBy(s: string, sep: char -> bool): (parts: seq<string>)
    ensures |parts| >= 1
    ensures forall i :: 0 <= i < |parts| ==> Avoids(parts[i], sep)
    decreases |s|
  {
    var k := FindFirst(s, sep);
    if k == |s| then [s] else [s[..k]] + SplitBy(s[k + 1..], sep)
  }

  /** Stripping keeps a string free of separators. */
  lemma StripAvoids(s: string, sep: char -> bool)
    requires Avoids(s, sep)
    ensures Avoids(Strip(s), sep)
  {
    var l := TrimLeft(s);
    assert Avoids(l, sep) by {
      forall j | 0 <= j < |l| ensures !sep(l[j]) {
        assert l[j] == s[|s| - |l| + j];
      }
    }
    var r := TrimRight(l);
    forall j | 0 <= j < |r| ensures !sep(r[j]) {
      assert r[j] == l[j];
    }
  }

  /** The pieces joined with the separator character c between them. */
  function JoinBy(parts: seq<string>, c: char): string
    requires |parts| >= 1
  {
    if |parts| == 1 then parts[0] else parts[0] + [c] + JoinBy(parts[1..], c)
  }

  lemma {:induction false} FindFirstOfJoin(p: string, c: char, t: string, sep: char -> bool)
    requires Avoids(p, sep) && sep(c)
    ensures FindFirst(p + [c] + t, sep) == |p|
    decreases |p|
  {
    if p != [] {
      assert (p + [c] + t)[1..] == p[1..] + [c] + t;
      FindFirstOfJoin(p[1..], c, t, sep);
    } else {
      assert p + [c] + t == [c] + t;
    }
  }

  /** Splitting at c what was joined with c gives the pieces back. */
  lemma {:induction false} SplitOfJoin(parts: seq<string>, c: char, sep: char -> bool)
    requires |parts| >= 1 && sep(c)
    requires forall i :: 0 <= i < |parts| ==> Avoids(parts[i], sep)
    ensures SplitBy(JoinBy(parts, c), sep) == parts
    decreases |parts|
  {
    if |parts| == 1 {
      assert FindFirst(parts[0], sep) == |parts[0]|;
    } else {
      var p, rest := parts[0], JoinBy(parts[1..], c);
      assert JoinBy(parts, c) == p + [c] + rest;
      SplitAtFirst(p, c, rest, sep);
      SplitOfJoin(parts[1..], c, sep);
      assert parts == [p] + parts[1..];
    }
  }

  /** A piece free of separators, then a separator: the piece comes off first. */
  lemma SplitAtFirst(p: string, c: char, rest: string, sep: char -> bool)
    requires Avoids(p, sep) && sep(c)
    ensures SplitBy(p + [c] + rest, sep) == [p] + SplitBy(rest, sep)
  {
    var s := p + [c] + rest;
    FindFirstOfJoin(p, c, rest, sep);
    assert s[..|p|] == p;
    assert s[|p| + 1..] == rest;
  }

  /**
   * str.splitlines(), except that a "\r\n" pair yields an extra empty line and a
   * trailing break yields a trailing empty line; every caller here skips empty lines.
   */
  function SplitLines(s: string): (lines: seq<string>)
    ensures |lines| >= 1 && forall i :: 0 <= i < |lines| ==> Avoids(lines[i], IsLineBreak)
    ensures Avoids(s, IsLineBreak) ==> lines == [s]
  {
    SplitBy(s, IsLineBreak)
  }

  /** "\n".join(lines) */
  function JoinLines(lines: seq<string>): string
    requires |lines| >= 1
  {
    JoinBy(lines, '\n')
  }

  // ---------------------------------------------------------------------------
  // Substring test and lower-casing

  predicate OccursAt(s: string, sub: string, i: nat) {
    i + |sub| <= |s| && s[i..i + |sub|] == sub
  }

  /** Python's `sub in s` for strings. */
  predicate Contains(s: string, sub: string)
    ensures Contains(s, sub) ==> |sub| <= |s|
  {
    exists i: nat | i <= |s| :: OccursAt(s, sub, i)
  }

  /** A string contains whatever it ends with. */
  lemma ContainsEnd(pre: string, sub: string)
    ensures Contains(pre + sub, sub)
  {
    var s := pre + sub;
    assert s[|pre|..|pre| + |sub|] == sub;
    assert OccursAt(s, sub, |pre|);
  }

  /**
   * str.lower() restricted to what can produce an ASCII letter: A-Z and the Kelvin
   * sign (which Python lowers to 'k'). Every other character is kept, so a string
   * holding any non-ASCII character never equals an ASCII word after lowering,
   * as in Python.
   */
  function LowerChar(c: char): char {
    if 'A' <= c <= 'Z' then (c as int + 32) as char
    else if c == '\U{212A}' then 'k'
    else c
  }

  function Lower(s: string): (r: string)
    ensures |r| == |s|
  {
    seq(|s|, i requires 0 <= i < |s| => LowerChar(s[i]))
  }

  // ---------------------------------------------------------------------------
  // int(token)

  predicate IsDigit(c: char) {
    '0' <= c <= '9'
  }

  function DigitValue(c: char): nat
    requires IsDigit(c)
  {
    c as int - '0' as int
  }

  /** Python's integer literal body: ASCII digits, single underscores allowed between digits. */
  predicate IsDigitString(t: string) {
    && |t| > 0 && IsDigit(t[0]) && IsDigit(t[|t| - 1])
    && forall i :: 0 <= i < |t| ==> IsDigit(t[i]) || (t[i] == '_' && i + 1 < |t| && IsDigit(t[i + 1]))
  }

  /** The number the digits of t spell, underscores ignored. */
  function DigitsValue(t: string): nat
    decreases |t|
  {
    if t == [] then 0
    else if IsDigit(t[|t| - 1]) then 10 * DigitsValue(t[..|t| - 1]) + DigitValue(t[|t| - 1])
    else DigitsValue(t[..|t| - 1])
  }

  /** int(t) for a token with no surrounding whitespace; None where Python raises ValueError (no digit-count limit). */
  function ParseInt(t: string): (v: Option<int>)
    ensures v.Some? ==> t != [] && (IsDigit(t[0]) || t[0] == '+' || t[0] == '-') && IsDigit(t[|t| - 1])
    ensures v.Some? && v.value < 0 ==> t[0] == '-'
  {
    if |t| > 0 && (t[0] == '+' || t[0] == '-') then
      if IsDigitString(t[1..]) then
        var v: int := DigitsValue(t[1..]);
        Some(if t[0] == '-' then -v else v)
      else None
    else if IsDigitString(t) then Some(DigitsValue(t))
    else None
  }

  lemma DigitStringAt(t: string, i: nat)
    requires i < |t|
    ensures IsDigitString(t) ==> IsDigit(t[i]) || (t[i] == '_' && i + 1 < |t| && IsDigit(t[i + 1]))
  {
    if i + 1 < |t| {
      var next := t[i + 1];
    }
  }

  /** int() raises on a token holding a character that is no digit, no '_' and no leading sign. */
  lemma ParseIntRejects(t: string, i: nat)
    requires i < |t| && !IsDigit(t[i]) && t[i] != '_' && !(i == 0 && (t[0] == '+' || t[0] == '-'))
    ensures ParseInt(t).None?
  {
    if t[0] == '+' || t[0] == '-' {
      assert t[1..][i - 1] == t[i];
      DigitStringAt(t[1..], i - 1);
    } else {
      DigitStringAt(t, i);
    }
  }

  /** int() raises on an underscore that does not stand between two digits: "_1", "1_", "1__2", "+_1". */
  lemma ParseIntRejectsUnderscore(t: string, i: nat)
    requires i < |t| && t[i] == '_'
    requires i == 0 || i + 1 == |t| || !IsDigit(t[i - 1]) || !IsDigit(t[i + 1])
    ensures ParseInt(t).None?
  {
    if t[0] == '+' || t[0] == '-' {
      var u := t[1..];
      assert i > 0 && u[i - 1] == t[i];
      DigitStringAt(u, i - 1);
      if i >= 2 {
        assert u[i - 2] == t[i - 1];
        DigitStringAt(u, i - 2);
      }
      if i + 1 < |t| {
        assert u[i] == t[i + 1];
      }
    } else {
      DigitStringAt(t, i);
      if i > 0 {
        DigitStringAt(t, i - 1);
      }
    }
  }

  function DigitChar(d: nat): (c: char)
    requires d < 10
    ensures IsDigit(c) && DigitValue(c) == d
  {
    ('0' as int + d) as char
  }

  /** str(n) for a non-negative integer. */
  function ShowNat(n: nat): (s: string)
    ensures |s| > 0 && forall i :: 0 <= i < |s| ==> IsDigit(s[i])
    decreases n
  {
    if n < 10 then [DigitChar(n)] else ShowNat(n / 10) + [DigitChar(n % 10)]
  }

  /** str(v) */
  function ShowInt(v: int): string
  {
    if v < 0 then "-" + ShowNat(-v) else ShowNat(v)
  }

  lemma {:induction false} DigitsValueOfShowNat(n: nat)
    ensures DigitsValue(ShowNat(n)) == n
    decreases n
  {
    if n >= 10 {
      var s := ShowNat(n);
      var prefix := ShowNat(n / 10);
      assert s[..|s| - 1] == prefix;
      DigitsValueOfShowNat(n / 10);
    }
  }

  /** int(str(v)) == v */
  lemma ParseShowInt(v: int)
    ensures ParseInt(ShowInt(v)) == Some(v)
  {
    var digits := ShowNat(if v < 0 then -v else v);
    DigitsValueOfShowNat(if v < 0 then -v else v);
    assert IsDigitString(digits);
    if v < 0 {
      assert ShowInt(v)[1..] == digits;
    }
  }

  /** An underscore between digit groups is accepted and ignored, as Python's int() does. */
  lemma ParseIntGroupedDigits()
    ensures ParseInt("1_000") == Some(1000)
  {
    var t := "1_000";
    assert IsDigit(t[0]) && t[1] == '_' && IsDigit(t[2]) && IsDigit(t[3]) && IsDigit(t[4]);
    assert IsDigitString(t);
    assert DigitsValue("1") == 1;
    assert DigitsValue("1_") == 1 by { assert "1_"[..1] == "1"; }
    assert DigitsValue("1_0") == 10 by { assert "1_0"[..2] == "1_"; }
    assert DigitsValue("1_00") == 100 by { assert "1_00"[..3] == "1_0"; }
    assert DigitsValue(t) == 1000 by { assert t[..4] == "1_00"; }
  }
}
