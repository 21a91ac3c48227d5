/**
 * The handful of Python string operations the driver relies on, written out:
 * whitespace and digit classes, `str.split()`, `str.split(sep)`, `sep.join`,
 * `str.strip()`, `str(int)` and `int(str)`.
 */
module Text {
  import opened Wrappers

  /** Python's `str.isspace`, which is also what `str.split()`, `str.strip()` and `\s` use. */
  predicate IsSpace(c: char) {
    ('\U{9}' <= c <= '\U{D}') || ('\U{1C}' <= c <= '\U{20}') || c == '\U{85}' || c == '\U{A0}'
    || c == '\U{1680}' || ('\U{2000}' <= c <= '\U{200A}') || c == '\U{2028}' || c == '\U{2029}'
    || c == '\U{202F}' || c == '\U{205F}' || c == '\U{3000}'
  }

  predicate NotSpace(c: char) { !IsSpace(c) }

  predicate IsDigit(c: char) { '0' <= c <= '9' }

  function DigitValue(c: char): (d: nat)
    requires IsDigit(c)
    ensures d < 10
  {
    (c as int) - ('0' as int)
  }

  function DigitChar(d: nat): (c: char)
    requires d < 10
    ensures IsDigit(c) && DigitValue(c) == d
  {
    ((('0' as int) + d) as char)
  }

  predicate NoSpace(s: string) { forall i :: 0 <= i < |s| ==> !IsSpace(s[i]) }

  predicate NoDigit(s: string) { forall i :: 0 <= i < |s| ==> !IsDigit(s[i]) }

  predicate AllDigits(s: string) { forall i :: 0 <= i < |s| ==> IsDigit(s[i]) }

  /** A word of `str.split()`: non-empty and free of whitespace. */
  predicate IsWord(w: string) { |w| > 0 && NoSpace(w) }

  /** Length of the longest prefix of `s` whose characters all satisfy `p`. */
  function Span(s: string, p: char -> bool): (n: nat)
    ensures n <= |s|
    ensures forall i :: 0 <= i < n ==> p(s[i])
    ensures n < |s| ==> !p(s[n])
  {
    if s == [] || !p(s[0]) then 0 else 1 + Span(s[1..], p)
  }

  lemma {:induction false} SpanOfPrefix(w: string, t: string, p: char -> bool)
    requires forall i :: 0 <= i < |w| ==> p(w[i])
    requires t == [] || !p(t[0])
    ensures Span(w + t, p) == |w|
  {
    if w != [] {
      assert (w + t)[1..] == w[1..] + t;
      SpanOfPrefix(w[1..], t, p);
    } else {
      assert w + t == t;
    }
  }

  /** Python's `s.split()`: the maximal runs of non-whitespace characters, in order. */
  function Words(s: string): (ws: seq<string>)
    decreases |s|
  {
    if s == [] then []
    else if IsSpace(s[0]) then Words(s[1..])
    else
      var n := Span(s, NotSpace);
      [s[..n]] + Words(s[n..])
  }

  lemma WordsOfWordThen(w: string, t: string)
    requires IsWord(w)
    requires t == [] || IsSpace(t[0])
    ensures Words(w + t) == [w] + Words(t)
  {
    SpanOfPrefix(w, t, NotSpace);
    assert (w + t)[..|w|] == w;
    assert (w + t)[|w|..] == t;
  }

  /** `sep.join(parts)`. */
  function Join(sep: string, parts: seq<string>): (s: string)
  {
    if |parts| == 0 then ""
    else if |parts| == 1 then parts[0]
    else parts[0] + sep + Join(sep, parts[1..])
  }

  /** Splitting a space-joined list of words with `str.split()` gives the words back. */
  lemma {:induction false} WordsOfJoin(ws: seq<string>)
    requires forall k :: 0 <= k < |ws| ==> IsWord(ws[k])
    ensures Words(Join(" ", ws)) == ws
  {
    if |ws| == 1 {
      WordsOfWordThen(ws[0], "");
      assert ws[0] + "" == ws[0];
    } else if |ws| > 1 {
      var rest := Join(" ", ws[1..]);
      assert Join(" ", ws) == ws[0] + (" " + rest);
      WordsOfWordThen(ws[0], " " + rest);
      assert (" " + rest)[1..] == rest;
      WordsOfJoin(ws[1..]);
      assert ws == [ws[0]] + ws[1..];
    }
  }

  /** A character in neither the separator nor any part is not in the joined string. */
  lemma {:induction false} JoinAvoids(sep: string, parts: seq<string>, c: char)
    requires c !in sep
    requires forall k :: 0 <= k < |parts| ==> c !in parts[k]
    ensures c !in Join(sep, parts)
  {
    if |parts| > 1 {
      JoinAvoids(sep, parts[1..], c);
    }
  }

  /** Index of the first `c` in `s`, or `|s|` when there is none. */
  function IndexOf(s: string, c: char): (i: nat)
    ensures i <= |s|
    ensures i < |s| ==> s[i] == c
    ensures forall j :: 0 <= j < i ==> s[j] != c
  {
    if s == [] || s[0] == c then 0 else 1 + IndexOf(s[1..], c)
  }

  /** IndexOf is characterised by its postconditions. */
  lemma IndexOfIs(s: string, c: char, k: nat)
    requires k <= |s|
    requires forall j :: 0 <= j < k ==> s[j] != c
    requires k == |s| || s[k] == c
    ensures IndexOf(s, c) == k
  {
  }

  /** Python's `s.split(c)` for a one-character separator: never empty, and `"".split(c) == [""]`. */
  function SplitOn(s: string, c: char): (parts: seq<string>)
    ensures |parts| > 0
    ensures forall k :: 0 <= k < |parts| ==> c !in parts[k]
    decreases |s|
  {
    if IndexOf(s, c) == |s| then [s]
    else [s[..IndexOf(s, c)]] + SplitOn(s[IndexOf(s, c) + 1..], c)
  }

  /** Joining the pieces of a split with the separator restores the string. */
  lemma {:induction false} JoinOfSplitOn(s: string, c: char)
    ensures Join([c], SplitOn(s, c)) == s
    decreases |s|
  {
    var i := IndexOf(s, c);
    if i < |s| {
      var tail := SplitOn(s[i + 1..], c);
      JoinOfSplitOn(s[i + 1..], c);
      assert SplitOn(s, c) == [s[..i]] + tail;
      JoinCons([c], s[..i], tail);
      AroundIndex(s, i);
    }
  }

  /** A string is what precedes position `i`, the character there, and what follows. */
  lemma AroundIndex(s: string, i: nat)
    requires i < |s|
    ensures s == s[..i] + [s[i]] + s[i + 1..]
  {
  }

  /** Joining a part in front of a non-empty list puts the separator between them. */
  lemma JoinCons(sep: string, p: string, tail: seq<string>)
    requires |tail| > 0
    ensures Join(sep, [p] + tail) == p + sep + Join(sep, tail)
  {
    assert ([p] + tail)[1..] == tail;
  }

  /** Splitting a joined list whose parts hold no separator gives the parts back. */
  lemma {:induction false} SplitOnOfJoin(parts: seq<string>, c: char)
    requires |parts| > 0
    requires forall k :: 0 <= k < |parts| ==> c !in parts[k]
    ensures SplitOn(Join([c], parts), c) == parts
  {
    var p := parts[0];
    if |parts| == 1 {
      assert IndexOf(p, c) == |p|;
    } else {
      var rest := Join([c], parts[1..]);
      var s := p + [c] + rest;
      assert Join([c], parts) == s;
      assert IndexOf(s, c) == |p| by {
        assert s[|p|] == c;
        assert forall j :: 0 <= j < |p| ==> s[j] == p[j];
      }
      assert s[..|p|] == p;
      assert s[|p| + 1..] == rest;
      SplitOnOfJoin(parts[1..], c);
      assert parts == [p] + parts[1..];
    }
  }

  /** `s.split(c)` has one more piece than `s` has copies of `c`. */
  lemma {:induction false} SplitOnLength(s: string, c: char)
    ensures |SplitOn(s, c)| == 1 + multiset(s)[c]
    decreases |s|
  {
    var i := IndexOf(s, c);
    var head := s[..i];
    assert multiset(head)[c] == 0 by {
      assert c !in head;
    }
    if i == |s| {
      assert head == s;
    } else {
      var tail := s[i + 1..];
      assert |SplitOn(s, c)| == 1 + |SplitOn(tail, c)|;
      SplitOnLength(tail, c);
      assert multiset(s)[c] == multiset(head)[c] + 1 + multiset(tail)[c] by {
        assert s == head + [c] + tail;
        assert multiset(s) == multiset(head) + multiset([c]) + multiset(tail);
      }
    }
  }

  /** Python's `str(n)` for a non-negative int: its decimal digits, no leading zeros. */
  function NatToString(n: nat): (s: string)
    ensures |s| > 0 && AllDigits(s)
  {
    if n < 10 then [DigitChar(n)] else NatToString(n / 10) + [DigitChar(n % 10)]
  }

  /** Python's `str(n)`, also what an f-string renders for an int. */
  function IntToString(n: int): (s: string)
    ensures |s| > 0 && NoSpace(s)
    ensures n >= 0 ==> AllDigits(s)
  {
    if n < 0 then "-" + NatToString(-n) else NatToString(n)
  }

  /** `str.lstrip()`: what remains is a suffix of `s`. */
  function TrimLeft(s: string): (r: string)
    ensures |r| <= |s| && r == s[|s| - |r|..]
    ensures r == [] || !IsSpace(r[0])
  {
    if s != [] && IsSpace(s[0]) then TrimLeft(s[1..]) else s
  }

  /** `str.rstrip()`: what remains is a prefix of `s`. */
  function TrimRight(s: string): (r: string)
    ensures |r| <= |s| && r == s[..|r|]
    ensures r == [] || !IsSpace(r[|r| - 1])
  {
    if s != [] && IsSpace(s[|s| - 1]) then TrimRight(s[..|s| - 1]) else s
  }

  /** `str.strip()`. */
  function Strip(s: string): string
  {
    TrimRight(TrimLeft(s))
  }

  /** `re.split(r"\s+", s)`: the fields between maximal runs of whitespace, empty edges kept. */
  function SplitAtSpaceRuns(s: string): (fields: seq<string>)
    ensures |fields| > 0
    decreases |s|
  {
    if FieldEnd(s) == |s| then [s] else [s[..FieldEnd(s)]] + SplitAtSpaceRuns(NextField(s))
  }

  /** Where the first field of the regex split ends. */
  function FieldEnd(s: string): (i: nat)
    ensures i <= |s|
  {
    Span(s, NotSpace)
  }

  /** What follows the first field and the whitespace run after it. */
  function NextField(s: string): (r: string)
    requires FieldEnd(s) < |s|
    ensures |r| < |s|
  {
    AfterSpaces(s[FieldEnd(s)..])
  }

  /** What follows the whitespace run at the start of `r`. */
  function AfterSpaces(r: string): (q: string)
    ensures |q| <= |r|
    ensures r != [] && IsSpace(r[0]) ==> |q| < |r|
  {
    r[Span(r, IsSpace)..]
  }

  /** `re.split(r"\s+", s.strip())`, the split the driver applies to whitespace-separated replies. */
  function SplitWhitespace(s: string): seq<string>
  {
    SplitAtSpaceRuns(Strip(s))
  }

  /** Leading whitespace does not change the words. */
  lemma {:induction false} WordsAfterSpaces(s: string, k: nat)
    requires k <= |s|
    requires forall i :: 0 <= i < k ==> IsSpace(s[i])
    ensures Words(s) == Words(s[k..])
  {
    if k > 0 {
      assert s[1..][k - 1..] == s[k..];
      WordsAfterSpaces(s[1..], k - 1);
    }
  }

  /** A trailing whitespace character does not change the words. */
  lemma {:induction false} WordsBeforeSpace(u: string, c: char)
    requires IsSpace(c)
    ensures Words(u + [c]) == Words(u)
    decreases |u|
  {
    var s := u + [c];
    if u == [] {
      assert s[1..] == [];
    } else if IsSpace(u[0]) {
      assert s[1..] == u[1..] + [c];
      WordsBeforeSpace(u[1..], c);
    } else {
      var m := Span(u, NotSpace);
      assert s == u[..m] + (u[m..] + [c]);
      SpanOfPrefix(u[..m], u[m..] + [c], NotSpace);
      assert s[..m] == u[..m];
      assert s[m..] == u[m..] + [c];
      WordsBeforeSpace(u[m..], c);
    }
  }

  lemma {:induction false} WordsOfTrimLeft(s: string)
    ensures Words(TrimLeft(s)) == Words(s)
  {
    if s != [] && IsSpace(s[0]) {
      WordsOfTrimLeft(s[1..]);
    }
  }

  lemma {:induction false} WordsOfTrimRight(s: string)
    ensures Words(TrimRight(s)) == Words(s)
  {
    if s != [] && IsSpace(s[|s| - 1]) {
      var u := s[..|s| - 1];
      WordsOfTrimRight(u);
      assert s == u + [s[|s| - 1]];
      WordsBeforeSpace(u, s[|s| - 1]);
    }
  }

  /** On a string with no whitespace at either end, the regex split is `str.split()`. */
  lemma {:induction false} SplitOfTrimmed(t: string)
    requires t == [] || (!IsSpace(t[0]) && !IsSpace(t[|t| - 1]))
    ensures SplitAtSpaceRuns(t) == if t == [] then [""] else Words(t)
    decreases |t|
  {
    if t != [] {
      if FieldEnd(t) < |t| {
        FieldThenWords(t);
        SplitOfTrimmed(NextField(t));
      } else {
        OneField(t);
      }
    }
  }

  /** A string that is one field is one word. */
  lemma OneField(t: string)
    requires t != [] && !IsSpace(t[0]) && FieldEnd(t) == |t|
    ensures SplitAtSpaceRuns(t) == [t] && Words(t) == [t]
  {
    WordsStep(t);
    assert t[..|t|] == t && t[|t|..] == [];
  }

  /**
   * The first field of a string with no whitespace at its ends is its first
   * word, and what follows the whitespace after it has no whitespace at its ends.
   */
  lemma FieldThenWords(t: string)
    requires t != [] && !IsSpace(t[0]) && !IsSpace(t[|t| - 1]) && FieldEnd(t) < |t|
    ensures var u := NextField(t);
      && u != [] && !IsSpace(u[0]) && !IsSpace(u[|u| - 1])
      && Words(t) == [t[..FieldEnd(t)]] + Words(u)
  {
    var r := t[FieldEnd(t)..];
    var m := SpaceRunAhead(r, t[|t| - 1]);
    WordsStep(t);
  }

  /** One word, then the words of what follows it. */
  lemma WordsStep(t: string)
    requires t != [] && !IsSpace(t[0])
    ensures var i := Span(t, NotSpace);
      Words(t) == [t[..i]] + Words(t[i..])
  {
  }

  /**
   * A whitespace run that ends before a non-space last character: skipping it
   * leaves the words unchanged and a string that starts and ends with no space.
   */
  lemma SpaceRunAhead(r: string, last: char) returns (m: nat)
    requires r != [] && IsSpace(r[0]) && r[|r| - 1] == last && !IsSpace(last)
    ensures m == Span(r, IsSpace) && 0 < m < |r|
    ensures !IsSpace(r[m..][0]) && r[m..][|r[m..]| - 1] == last
    ensures Words(r) == Words(r[m..])
  {
    m := Span(r, IsSpace);
    WordsAfterSpaces(r, m);
  }

  /** The words of its whitespace-free ends are the words of the string. */
  lemma WordsOfStrip(s: string)
    ensures Words(Strip(s)) == Words(s)
  {
    WordsOfTrimLeft(s);
    WordsOfTrimRight(TrimLeft(s));
  }

  /**
   * Splitting on whitespace runs after stripping is `str.split()`, except that
   * a blank string gives one empty field rather than none.
   */
  lemma SplitWhitespaceIsWords(s: string)
    ensures SplitWhitespace(s) == if Words(s) == [] then [""] else Words(s)
  {
    var t := Strip(s);
    WordsOfStrip(s);
    assert t == [] || !IsSpace(t[0]) by {
      assert t == TrimLeft(s)[..|t|];
    }
    SplitOfTrimmed(t);
    if t != [] {
      assert Words(t) != [];
    }
  }

  /**
   * The digit part that Python's `int(str)` accepts: ASCII digits, with single
   * underscores allowed between two digits.
   */
  predicate IsDecimalLiteral(b: string) {
    && |b| > 0
    && IsDigit(b[0])
    && IsDigit(b[|b| - 1])
    && (forall i :: 0 <= i < |b| ==> IsDigit(b[i]) || b[i] == '_')
    && (forall i, j :: 0 <= i < |b| && 0 <= j < |b| && j == i + 1 ==> IsDigit(b[i]) || IsDigit(b[j]))
  }

  /** The value of a decimal literal, underscores skipped. */
  function LiteralValue(b: string): nat
  {
    if b == [] then 0
    else if IsDigit(b[|b| - 1]) then 10 * LiteralValue(b[..|b| - 1]) + DigitValue(b[|b| - 1])
    else LiteralValue(b[..|b| - 1])
  }

  /**
   * The whitespace `int(str)` skips around a literal. Non-ASCII whitespace is
   * read as a space first, but of the ASCII characters only space and
   * `\t`..`\r` are skipped: the separators `\x1c`..`\x1f`, which `str.isspace`
   * accepts, are not.
   */
  predicate IsIntSpace(c: char) {
    IsSpace(c) && !('\U{1C}' <= c <= '\U{1F}')
  }

  /** The leading whitespace `int(str)` skips: what remains is a suffix of `s`. */
  function IntTrimLeft(s: string): (r: string)
    ensures |r| <= |s| && r == s[|s| - |r|..]
    ensures r == [] || !IsIntSpace(r[0])
  {
    if s != [] && IsIntSpace(s[0]) then IntTrimLeft(s[1..]) else s
  }

  /** The trailing whitespace `int(str)` skips: what remains is a prefix of `s`. */
  function IntTrimRight(s: string): (r: string)
    ensures |r| <= |s| && r == s[..|r|]
    ensures r == [] || !IsIntSpace(r[|r| - 1])
  {
    if s != [] && IsIntSpace(s[|s| - 1]) then IntTrimRight(s[..|s| - 1]) else s
  }

  /**
   * Python's `int(s)` for a string: surrounding whitespace skipped, an optional
   * sign, then a decimal literal; anything else raises ValueError (None here).
   */
  function ParseInt(s: string): (r: Option<int>)
  {
    var t := IntTrimRight(IntTrimLeft(s));
    if |t| > 0 && (t[0] == '+' || t[0] == '-') then
      if IsDecimalLiteral(t[1..]) then
        var v: int := LiteralValue(t[1..]);
        Some(if t[0] == '-' then -v else v)
      else None
    else if IsDecimalLiteral(t) then Some(LiteralValue(t))
    else None
  }

  lemma {:induction false} LiteralValueOfNat(n: nat)
    ensures IsDecimalLiteral(NatToString(n))
    ensures LiteralValue(NatToString(n)) == n
  {
    var s := NatToString(n);
    if n >= 10 {
      var p := NatToString(n / 10);
      LiteralValueOfNat(n / 10);
      assert s[..|s| - 1] == p;
    }
  }

  /** `int(str(n)) == n`: the decimal rendering of an int parses back to it. */
  lemma ParseIntOfIntToString(n: int)
    ensures ParseInt(IntToString(n)) == Some(n)
  {
    LiteralValueOfNat(if n < 0 then -n else n);
    if n < 0 {
      ParseIntOfNegativeDigits(NatToString(-n));
    } else {
      ParseIntOfDigits(NatToString(n));
    }
  }

  /** A plain run of digits is a decimal literal. */
  lemma DigitsAreLiteral(t: string)
    requires |t| > 0 && AllDigits(t)
    ensures IsDecimalLiteral(t)
  {
    assert IsDigit(t[0]) && IsDigit(t[|t| - 1]);
  }

  /** `int(s)` of a plain run of digits is the number they spell. */
  lemma ParseIntOfDigits(t: string)
    requires |t| > 0 && AllDigits(t)
    ensures ParseInt(t) == Some(LiteralValue(t))
  {
    DigitsAreLiteral(t);
    assert IntTrimLeft(t) == t && IntTrimRight(t) == t by {
      IntStripWithoutEdgeSpace(t);
    }
    assert !(t[0] == '+' || t[0] == '-');
  }

  /** `int(s)` of a minus sign and a run of digits is the negated number. */
  lemma ParseIntOfNegativeDigits(d: string)
    requires |d| > 0 && AllDigits(d)
    ensures ParseInt("-" + d) == Some(-(LiteralValue(d) as int))
  {
    DigitsAreLiteral(d);
    ParseIntOfMinus(d);
  }

  /** `int("-" + b)` of a decimal literal `b` is its value negated. */
  lemma ParseIntOfMinus(b: string)
    requires IsDecimalLiteral(b)
    ensures ParseInt("-" + b) == Some(-(LiteralValue(b) as int))
  {
    var t := "-" + b;
    assert t[1..] == b && t[|t| - 1] == b[|b| - 1];
    IntStripWithoutEdgeSpace(t);
  }

  /** Neither of the trims `int(str)` makes changes a string with no such whitespace at its ends. */
  lemma IntStripWithoutEdgeSpace(t: string)
    requires t == [] || (!IsIntSpace(t[0]) && !IsIntSpace(t[|t| - 1]))
    ensures IntTrimLeft(t) == t && IntTrimRight(t) == t
  {
  }

  /**
   * `int(s)` raises on a string that starts with one of the separators
   * `\x1c`..`\x1f`, although `str.strip()` would remove it.
   */
  lemma ParseIntRejectsSeparator(s: string)
    requires |s| > 0 && '\U{1C}' <= s[0] <= '\U{1F}'
    ensures IsSpace(s[0]) && |TrimLeft(s)| < |s|
    ensures ParseInt(s) == None
  {
    assert TrimLeft(s) == TrimLeft(s[1..]);
    ParseIntOfBadStart(s);
  }

  /** `int(s)` raises when `s` starts with a character that is not skipped, not a sign and not a digit. */
  lemma ParseIntOfBadStart(s: string)
    requires |s| > 0 && !IsIntSpace(s[0]) && !IsDigit(s[0]) && s[0] != '+' && s[0] != '-'
    ensures ParseInt(s) == None
  {
    assert IntTrimLeft(s) == s;
    IntTrimRightKeepsFirst(s);
  }

  /** Trimming at the right keeps a first character that is not skipped. */
  lemma {:induction false} IntTrimRightKeepsFirst(s: string)
    requires |s| > 0 && !IsIntSpace(s[0])
    ensures |IntTrimRight(s)| > 0 && IntTrimRight(s)[0] == s[0]
  {
    if IsIntSpace(s[|s| - 1]) {
      assert |s| > 1;
      IntTrimRightKeepsFirst(s[..|s| - 1]);
    }
  }

  /** `int("\x1c5")` raises. */
  lemma ParseIntSeparatorExample()
    ensures ParseInt("\U{1C}5") == None
  {
    ParseIntRejectsSeparator("\U{1C}5");
  }

  /** A piece of a digit-free string is digit-free. */
  lemma NoDigitOfSlice(s: string, a: nat, b: nat)
    requires NoDigit(s) && a <= b <= |s|
    ensures NoDigit(s[a..b])
  {
    assert forall i :: 0 <= i < b - a ==> s[a..b][i] == s[a + i];
  }

  /** A digit-free string is no signed or unsigned decimal literal. */
  lemma NotLiteralWithoutDigits(t: string)
    requires NoDigit(t)
    ensures !IsDecimalLiteral(t)
    ensures |t| > 0 ==> !IsDecimalLiteral(t[1..])
  {
    if |t| > 1 {
      assert t[1..][0] == t[1];
    }
  }

  /** `int(s)` raises on every string that holds no digit at all. */
  lemma ParseIntWithoutDigits(s: string)
    requires NoDigit(s)
    ensures ParseInt(s) == None
  {
    var l := IntTrimLeft(s);
    NoDigitOfSlice(s, |s| - |l|, |s|);
    var t := IntTrimRight(l);
    NoDigitOfSlice(l, 0, |t|);
    NotLiteralWithoutDigits(t);
  }
}
