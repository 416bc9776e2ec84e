/** Python string primitives the engine relies on: whitespace, `str.split()`,
    `str.strip()`, `str.lower()`, `str.join`, prefix and suffix tests, and the
    decimal rendering of counters (`f"_{counter}"`). */
module Text {

  /** Python's `str.isspace()`: the characters on which `str.split()` and
      `str.strip()` cut, and which the regular expression `\s` matches. */
  predicate IsSpace(c: char) {
    var n := c as int;
    (9 <= n <= 13) || (28 <= n <= 32) || n == 0x85 || n == 0xA0 || n == 0x1680
    || (0x2000 <= n <= 0x200A) || n == 0x2028 || n == 0x2029 || n == 0x202F
    || n == 0x205F || n == 0x3000
  }

  predicate NoSpace(s: string) {
    forall i :: 0 <= i < |s| ==> !IsSpace(s[i])
  }

  predicate AllSpace(s: string) {
    forall i :: 0 <= i < |s| ==> IsSpace(s[i])
  }

  /** Length of the leading run of non-whitespace characters. */
  function WordLength(s: string): (n: nat)
    ensures n <= |s| && NoSpace(s[..n])
    ensures n < |s| ==> IsSpace(s[n])
    ensures |s| > 0 && !IsSpace(s[0]) ==> n > 0
  {
    if |s| == 0 || IsSpace(s[0]) then 0 else 1 + WordLength(s[1..])
  }

  /** Length of the leading run of whitespace characters. */
  function SpaceLength(s: string): (n: nat)
    ensures n <= |s| && AllSpace(s[..n])
    ensures n < |s| ==> !IsSpace(s[n])
    ensures |s| > 0 && IsSpace(s[0]) ==> n > 0
  {
    if |s| == 0 || !IsSpace(s[0]) then 0 else 1 + SpaceLength(s[1..])
  }

  /** Python's `s.split()` with no separator: the maximal runs of non-whitespace,
      in order. Words are separated by whitespace, so there are at most
      half as many (rounded up) as there are characters. */
  function Words(s: string): (ws: seq<string>)
    ensures forall k :: 0 <= k < |ws| ==> |ws[k]| > 0 && NoSpace(ws[k])
    ensures 2 * |ws| <= |s| + 1
    decreases |s|
  {
    if |s| == 0 then []
    else if IsSpace(s[0]) then Words(s[1..])
    else
      var n := WordLength(s);
      assert n < |s| ==> Words(s[n..]) == Words(s[n..][1..]);
      [s[..n]] + Words(s[n..])
  }

  /** `len(text.split())`: the engine's word count (`_count_words_in_text`). */
  function CountWords(text: string): nat {
    |Words(text)|
  }

  /** Python's `sep.join(parts)`. */
  function Join(parts: seq<string>, sep: string): string {
    if |parts| == 0 then ""
    else if |parts| == 1 then parts[0]
    else parts[0] + sep + Join(parts[1..], sep)
  }

  lemma {:induction false} JoinCons(w: string, rest: seq<string>, sep: string)
    ensures Join([w] + rest, sep) == if rest == [] then w else w + sep + Join(rest, sep)
  {
    assert ([w] + rest)[1..] == rest;
  }

  /** `re.sub(r'\s+', ' ', s)`: every maximal whitespace run becomes one space. */
  function CollapseSpace(s: string): string
    decreases |s|
  {
    if |s| == 0 then ""
    else if IsSpace(s[0]) then " " + CollapseSpace(s[SpaceLength(s)..])
    else
      var n := WordLength(s);
      s[..n] + CollapseSpace(s[n..])
  }

  function TrimStart(s: string): string {
    if |s| > 0 && IsSpace(s[0]) then TrimStart(s[1..]) else s
  }

  function TrimEnd(s: string): string {
    if |s| > 0 && IsSpace(s[|s| - 1]) then TrimEnd(s[..|s| - 1]) else s
  }

  /** Python's `s.strip()` with no argument. */
  function Strip(s: string): string {
    TrimEnd(TrimStart(s))
  }

  /** Python's `str.lower()` restricted to the ASCII letters. */
  function LowerChar(c: char): char {
    if 'A' <= c <= 'Z' then (c as int + 32) as char else c
  }

  function Lower(s: string): (r: string)
    ensures |r| == |s| && forall i :: 0 <= i < |s| ==> r[i] == LowerChar(s[i])
  {
    seq(|s|, i requires 0 <= i < |s| => LowerChar(s[i]))
  }

  predicate StartsWith(s: string, prefix: string) {
    |prefix| <= |s| && s[..|prefix|] == prefix
  }

  predicate EndsWith(s: string, suffix: string) {
    |suffix| <= |s| && s[|s| - |suffix|..] == suffix
  }

  /** `s.lower().endswith(suffix)` for a lower-case suffix. */
  predicate EndsWithIgnoreCase(s: string, suffix: string) {
    EndsWith(Lower(s), suffix)
  }

  predicate IsDigit(c: char) {
    '0' <= c <= '9'
  }

  function DigitChar(d: nat): (c: char)
    requires d < 10
    ensures IsDigit(c) && c as int - '0' as int == d
  {
    ('0' as int + d) as char
  }

  function DigitValue(c: char): (d: nat)
    requires IsDigit(c)
    ensures d < 10
  {
    c as int - '0' as int
  }

  /** `str(n)` for a non-negative integer: its decimal digits, most significant first. */
  function NatToString(n: nat): (s: string)
    ensures |s| > 0 && forall i :: 0 <= i < |s| ==> IsDigit(s[i])
  {
    if n < 10 then [DigitChar(n)] else NatToString(n / 10) + [DigitChar(n % 10)]
  }

  /** `int(s)` for a string of decimal digits: the inverse of NatToString. */
  function ParseDigits(s: string): nat
    requires forall i :: 0 <= i < |s| ==> IsDigit(s[i])
  {
    if |s| == 0 then 0
    else 10 * ParseDigits(s[..|s| - 1]) + DigitValue(s[|s| - 1])
  }

  /** Rendering a counter and reading it back gives the counter. */
  lemma {:induction false} ParseNatToString(n: nat)
    ensures ParseDigits(NatToString(n)) == n
  {
    if n >= 10 {
      var s := NatToString(n);
      assert s[..|s| - 1] == NatToString(n / 10);
      ParseNatToString(n / 10);
    }
  }

  /** Distinct counters render to distinct strings. */
  lemma NatToStringInjective(a: nat, b: nat)
    ensures NatToString(a) == NatToString(b) ==> a == b
  {
    ParseNatToString(a);
    ParseNatToString(b);
  }

  // ---------------------------------------------------------------------------
  // `re.sub(r'\s+', ' ', s).strip()` is `' '.join(s.split())`

  function LeadSpace(s: string): string {
    if |s| > 0 && IsSpace(s[0]) then " " else ""
  }

  function TrailSpace(s: string): string {
    if |s| > 0 && IsSpace(s[|s| - 1]) && Words(s) != [] then " " else ""
  }

  lemma {:induction false} WordsSkipSpace(s: string)
    ensures Words(s) == Words(s[SpaceLength(s)..])
    decreases |s|
  {
    if |s| > 0 && IsSpace(s[0]) {
      WordsSkipSpace(s[1..]);
      assert s[1..][SpaceLength(s[1..])..] == s[SpaceLength(s)..];
    }
  }

  lemma {:induction false} NoWordsAllSpace(s: string)
    requires Words(s) == []
    ensures AllSpace(s)
    decreases |s|
  {
    if |s| > 0 {
      if IsSpace(s[0]) {
        NoWordsAllSpace(s[1..]);
      }
    }
  }

  /** The collapsed string is the words joined by single spaces, plus one
      space on either side where the input had whitespace there. */
  lemma {:induction false} CollapseShape(s: string)
    ensures CollapseSpace(s) == LeadSpace(s) + Join(Words(s), " ") + TrailSpace(s)
    decreases |s|, 1
  {
    if |s| == 0 {
    } else if IsSpace(s[0]) {
      CollapseShapeSpace(s);
    } else {
      CollapseShapeWord(s);
    }
  }

  lemma {:induction false} CollapseShapeSpace(s: string)
    requires |s| > 0 && IsSpace(s[0])
    ensures CollapseSpace(s) == LeadSpace(s) + Join(Words(s), " ") + TrailSpace(s)
    decreases |s|, 0
  {
    var r := s[SpaceLength(s)..];
    var j := Join(Words(r), " ");
    CollapseShape(r);
    WordsSkipSpace(s);
    assert LeadSpace(r) == "";
    if |r| > 0 {
      assert r[|r| - 1] == s[|s| - 1];
    }
    var t := TrailSpace(r);
    assert t == TrailSpace(s);
    calc {
      CollapseSpace(s);
      " " + CollapseSpace(r);
      " " + ("" + j + t);
      { assert "" + j + t == j + t; }
      " " + (j + t);
      { assert " " + (j + t) == " " + j + t; }
      " " + j + t;
      { assert LeadSpace(s) == " " && Join(Words(s), " ") == j; }
      LeadSpace(s) + Join(Words(s), " ") + TrailSpace(s);
    }
  }

  lemma {:induction false} CollapseShapeWord(s: string)
    requires |s| > 0 && !IsSpace(s[0])
    ensures CollapseSpace(s) == LeadSpace(s) + Join(Words(s), " ") + TrailSpace(s)
    decreases |s|, 0
  {
    var n := WordLength(s);
    var w, r := s[..n], s[n..];
    assert CollapseSpace(s) == w + CollapseSpace(r);
    assert Words(s) == [w] + Words(r);
    JoinCons(w, Words(r), " ");
    CollapseShape(r);
    assert LeadSpace(s) == "";
    if |r| == 0 {
      assert s[|s| - 1] == w[n - 1];
      assert s == w;
    } else if Words(r) == [] {
      NoWordsAllSpace(r);
      assert r[|r| - 1] == s[|s| - 1];
      ShapeWordThenSpaces(s, w, r);
    } else {
      assert r[|r| - 1] == s[|s| - 1];
      ShapeWordThenMore(s, w, r);
    }
  }

  lemma {:induction false} ShapeWordThenSpaces(s: string, w: string, r: string)
    requires |s| > 0 && !IsSpace(s[0]) && IsSpace(s[|s| - 1])
    requires |r| > 0 && IsSpace(r[0]) && Words(r) == []
    requires Words(s) == [w] && CollapseSpace(s) == w + CollapseSpace(r)
    requires CollapseSpace(r) == LeadSpace(r) + Join(Words(r), " ") + TrailSpace(r)
    ensures CollapseSpace(s) == LeadSpace(s) + Join(Words(s), " ") + TrailSpace(s)
  {
    SpaceEdges(s, [w]);
    CollapseOnlySpace(r);
    assert "" + w + " " == w + " ";
  }

  /** The edge spaces of a string with words, by its first and last characters. */
  lemma SpaceEdges(s: string, ws: seq<string>)
    requires |s| > 0 && Words(s) == ws && ws != []
    ensures LeadSpace(s) == (if IsSpace(s[0]) then " " else "")
    ensures TrailSpace(s) == (if IsSpace(s[|s| - 1]) then " " else "")
    ensures |ws| == 1 ==> Join(ws, " ") == ws[0]
  {
  }

  lemma CollapseOnlySpace(r: string)
    requires |r| > 0 && IsSpace(r[0]) && Words(r) == []
    requires CollapseSpace(r) == LeadSpace(r) + Join(Words(r), " ") + TrailSpace(r)
    ensures CollapseSpace(r) == " "
  {
    assert LeadSpace(r) == " " && TrailSpace(r) == "";
  }

  lemma ConcatRegroup(a: string, b: string, c: string, d: string)
    ensures a + (b + c + d) == (a + b + c) + d
  {
  }

  lemma {:induction false} ShapeWordThenMore(s: string, w: string, r: string)
    requires |s| > 0 && !IsSpace(s[0]) && |r| > 0 && IsSpace(r[0]) && Words(r) != []
    requires r[|r| - 1] == s[|s| - 1]
    requires Words(s) == [w] + Words(r) && CollapseSpace(s) == w + CollapseSpace(r)
    requires Join(Words(s), " ") == w + " " + Join(Words(r), " ")
    requires CollapseSpace(r) == LeadSpace(r) + Join(Words(r), " ") + TrailSpace(r)
    ensures CollapseSpace(s) == LeadSpace(s) + Join(Words(s), " ") + TrailSpace(s)
  {
    var j, t := Join(Words(r), " "), TrailSpace(r);
    assert t == TrailSpace(s);
    assert LeadSpace(r) == " " && LeadSpace(s) == "";
    calc {
      CollapseSpace(s);
      w + (" " + j + t);
      { ConcatRegroup(w, " ", j, t); }
      (w + " " + j) + t;
      { assert "" + (w + " " + j) == w + " " + j; }
      LeadSpace(s) + Join(Words(s), " ") + TrailSpace(s);
    }
  }

  /** Joined words neither start nor end with whitespace. */
  lemma {:induction false} JoinWordsEdges(ws: seq<string>)
    requires forall k :: 0 <= k < |ws| ==> |ws[k]| > 0 && NoSpace(ws[k])
    ensures var j := Join(ws, " ");
      (ws == [] <==> j == "") &&
      (j != [] ==> !IsSpace(j[0]) && !IsSpace(j[|j| - 1]))
  {
    if |ws| > 1 {
      JoinWordsEdges(ws[1..]);
    }
  }

  lemma {:induction false} TrimStartNoSpace(s: string)
    requires |s| == 0 || !IsSpace(s[0])
    ensures TrimStart(s) == s
  {
  }

  lemma {:induction false} TrimEndNoSpace(s: string)
    requires |s| == 0 || !IsSpace(s[|s| - 1])
    ensures TrimEnd(s) == s
  {
  }

  /** Collapsing whitespace runs and then stripping leaves exactly the words
      of the input joined by single spaces. */
  lemma {:induction false} CollapseStripIsJoinedWords(s: string)
    ensures Strip(CollapseSpace(s)) == Join(Words(s), " ")
  {
    CollapseShape(s);
    JoinWordsEdges(Words(s));
    StripPadded(LeadSpace(s), Join(Words(s), " "), TrailSpace(s));
  }

  /** Stripping removes at most one space of padding on either side of a
      string that neither starts nor ends with whitespace. */
  lemma {:induction false} StripPadded(lead: string, j: string, t: string)
    requires lead == "" || lead == " "
    requires t == "" || t == " "
    requires j == "" ==> t == ""
    requires j != "" ==> !IsSpace(j[0]) && !IsSpace(j[|j| - 1])
    ensures Strip(lead + j + t) == j
  {
    assert TrimStart(lead + j + t) == j + t by {
      if lead == " " {
        assert (lead + j + t)[1..] == j + t;
        TrimStartNoSpace(j + t);
      } else {
        assert lead + j + t == j + t;
        TrimStartNoSpace(j + t);
      }
    }
    if t == " " {
      assert (j + t)[..|j + t| - 1] == j;
    } else {
      assert j + t == j;
    }
    TrimEndNoSpace(j);
  }

  // ---------------------------------------------------------------------------
  // The words of joined and trimmed strings

  lemma {:induction false} WordLengthExtend(x: string, y: string)
    requires WordLength(x) < |x| || (|y| > 0 && IsSpace(y[0]))
    ensures WordLength(x + y) == WordLength(x)
    decreases |x|
  {
    if |x| > 0 && !IsSpace(x[0]) {
      assert (x + y)[1..] == x[1..] + y;
      WordLengthExtend(x[1..], y);
    }
  }

  /** One step of `Words`. */
  lemma WordsUnfold(s: string)
    ensures |s| == 0 ==> Words(s) == []
    ensures |s| > 0 && IsSpace(s[0]) ==> Words(s) == Words(s[1..])
    ensures |s| > 0 && !IsSpace(s[0]) ==> Words(s) == [s[..WordLength(s)]] + Words(s[WordLength(s)..])
  {
  }

  /** Splitting at a whitespace character splits the words. */
  lemma {:induction false} WordsAroundSpace(a: string, c: char, b: string)
    requires IsSpace(c)
    ensures Words(a + [c] + b) == Words(a) + Words(b)
    decreases |a|
  {
    hide Words;
    var s := a + [c] + b;
    WordsUnfold(s);
    WordsUnfold(a);
    if |a| == 0 {
      assert s[1..] == b;
    } else if IsSpace(a[0]) {
      assert s[1..] == a[1..] + [c] + b;
      WordsAroundSpace(a[1..], c, b);
    } else {
      var n := WordLength(a);
      WordLengthExtend(a, [c] + b);
      assert s == a + ([c] + b);
      assert s[..n] == a[..n];
      assert s[n..] == a[n..] + [c] + b;
      WordsAroundSpace(a[n..], c, b);
    }
  }

  /** The words of each line, in order. */
  function LineWords(lines: seq<string>): seq<string> {
    if |lines| == 0 then [] else Words(lines[0]) + LineWords(lines[1..])
  }

  lemma {:induction false} LineWordsAppend(a: seq<string>, b: seq<string>)
    ensures LineWords(a + b) == LineWords(a) + LineWords(b)
    decreases |a|
  {
    if |a| > 0 {
      assert (a + b)[1..] == a[1..] + b;
      LineWordsAppend(a[1..], b);
    } else {
      assert a + b == b;
    }
  }

  /** Lines joined by line breaks have exactly the words of the lines. */
  lemma {:induction false} WordsOfLines(lines: seq<string>)
    ensures Words(Join(lines, "\n")) == LineWords(lines)
    decreases |lines|
  {
    if |lines| == 0 {
      assert Words("") == [];
    } else if |lines| == 1 {
      assert LineWords(lines[1..]) == [];
    } else {
      WordsOfLines(lines[1..]);
      var rest := Join(lines[1..], "\n");
      assert lines[0] + "\n" + rest == lines[0] + ['\n'] + rest;
      WordsAroundSpace(lines[0], '\n', rest);
    }
  }

  /** The words of each line are empty exactly when every line is blank. */
  lemma {:induction false} LineWordsEmpty(lines: seq<string>)
    ensures LineWords(lines) == [] <==> forall k :: 0 <= k < |lines| ==> Words(lines[k]) == []
    decreases |lines|
  {
    if |lines| > 0 {
      LineWordsEmpty(lines[1..]);
      assert forall k :: 1 <= k < |lines| ==> lines[k] == lines[1..][k - 1];
    }
  }

  /** `str.lstrip()` drops a leading piece of whitespace and no word. */
  lemma {:induction false} TrimStartSpec(s: string)
    ensures var r := TrimStart(s);
      && |r| <= |s| && r == s[|s| - |r|..]
      && Words(r) == Words(s)
      && (r == "" || !IsSpace(r[0]))
    decreases |s|
  {
    if |s| > 0 && IsSpace(s[0]) {
      TrimStartSpec(s[1..]);
      var r := TrimStart(s[1..]);
      assert s[1..][|s[1..]| - |r|..] == s[|s| - |r|..];
    }
  }

  /** `str.rstrip()` drops a trailing piece of whitespace and no word. */
  lemma TrimEndSpec(s: string)
    ensures var r := TrimEnd(s);
      && |r| <= |s| && r == s[..|r|]
      && Words(r) == Words(s)
      && (r == "" || !IsSpace(r[|r| - 1]))
  {
    TrimEndShape(s);
    TrimEndWords(s);
  }

  lemma {:induction false} TrimEndShape(s: string)
    ensures var r := TrimEnd(s);
      && |r| <= |s| && r == s[..|r|]
      && (r == "" || !IsSpace(r[|r| - 1]))
    decreases |s|
  {
    if |s| > 0 && IsSpace(s[|s| - 1]) {
      var init := s[..|s| - 1];
      TrimEndShape(init);
      assert init[..|TrimEnd(init)|] == s[..|TrimEnd(init)|];
    } else {
      assert s == s[..|s|];
    }
  }

  lemma {:induction false} TrimEndWords(s: string)
    ensures Words(TrimEnd(s)) == Words(s)
    decreases |s|
  {
    if |s| > 0 && IsSpace(s[|s| - 1]) {
      var init := s[..|s| - 1];
      assert TrimEnd(s) == TrimEnd(init);
      assert Words("") == [];
      TrimEndWords(init);
      hide TrimEnd, Words;
      assert s == init + [s[|s| - 1]] + "";
      WordsAroundSpace(init, s[|s| - 1], "");
    } else {
      assert TrimEnd(s) == s;
    }
  }

  /** `str.strip()` keeps a contiguous piece of the string that neither
      starts nor ends with whitespace and has the same words; it is empty
      exactly when the string has no words. */
  lemma {:induction false} StripSpec(s: string)
    ensures var r := Strip(s);
      && (exists i, j :: 0 <= i <= j <= |s| && r == s[i..j])
      && Words(r) == Words(s)
      && (r == "" <==> Words(s) == [])
      && (r != "" ==> !IsSpace(r[0]) && !IsSpace(r[|r| - 1]))
  {
    var t := TrimStart(s);
    var r := TrimEnd(t);
    assert Strip(s) == r;
    TrimStartSpec(s);
    TrimEndSpec(t);
    hide Words, TrimStart, TrimEnd, Strip;
    var i := |s| - |t|;
    assert r == s[i..][..|r|] == s[i..i + |r|];
    WordsUnfold(r);
    if r != "" {
      assert r[0] == t[0];
    }
  }
}
