/**
 * The status decoder: the coarse idle/busy marker, the eight-bit per-axis
 * status byte, and the multi-axis `RS` reply whose tokens the firmware does not
 * always separate with spaces.
 */
module Status {
  import opened Wrappers
  import opened Text
  import opened Errors

  /** The coarse status; its enum values are the reply letters `N` and `B`. */
  datatype Status = Idle | Busy

  function StatusValue(s: Status): string
  {
    match s
    case Idle => "N"
    case Busy => "B"
  }

  /** `Status(value)`: lookup by enum value; any other string raises ValueError. */
  function StatusOfValue(value: string): (r: Result<Status, Failure>)
    ensures r.Ok? <==> value == "N" || value == "B"
    ensures r.Ok? ==> StatusValue(r.value) == value
    ensures r.Err? ==> r.error == ValueError
  {
    if value == "N" then Ok(Idle) else if value == "B" then Ok(Busy) else Err(ValueError)
  }

  /** The argument types `Union[str, int]` of `from_flag` and `status_from_decimal`. */
  datatype StrOrInt = Str(s: string) | Num(n: int)

  /** `Status.from_flag`: an int is idle exactly when it is 0; a string is looked up by value. */
  function FromFlag(flag: StrOrInt): (r: Result<Status, Failure>)
    ensures flag.Num? ==> r.Ok? && (r.value == Idle <==> flag.n == 0)
    ensures flag.Str? ==> r == StatusOfValue(flag.s)
  {
    match flag
    case Num(n) => Ok(if n == 0 then Idle else Busy)
    case Str(s) => StatusOfValue(s)
  }

  /** Both encodings of the coarse status decode to the status they encode. */
  lemma FromFlagRoundTrip(s: Status)
    ensures FromFlag(Str(StatusValue(s))) == Ok(s)
    ensures FromFlag(Num(if s == Idle then 0 else 1)) == Ok(s)
  {
  }

  datatype AxisEnabledStatus = AxisDisabled | AxisEnabled
  datatype MotorStatus = Inactive | Active
  datatype JoystickStatus = JoystickDisabled | JoystickEnabled
  datatype RampingStatus = NotRamping | Ramping
  datatype RampingDirection = Down | Up
  datatype LimitStatus = Open | Closed

  /** The fields of one status byte, least-significant bit first. */
  datatype AxisStatus = AxisStatus(
    status: Status,
    enabled: AxisEnabledStatus,
    motor: MotorStatus,
    joystick: JoystickStatus,
    ramping: RampingStatus,
    rampingDirection: RampingDirection,
    upperLimit: LimitStatus,
    lowerLimit: LimitStatus)

  type Bit = b: int | 0 <= b < 2

  /**
   * `reversed(list(map(int, f"{n:0{width}b}")))` for `n >= 0`: the binary digits
   * of `n`, least significant first, padded with zeros to at least `width`.
   */
  function LowBitsFirst(n: nat, width: nat): (bits: seq<Bit>)
    ensures |bits| >= width
    decreases n + width
  {
    if n == 0 && width == 0 then [] else [n % 2] + LowBitsFirst(n / 2, if width > 0 then width - 1 else 0)
  }

  /** The number whose binary digits, least significant first, are `bits`. */
  function Weigh(bits: seq<Bit>): nat
  {
    if bits == [] then 0 else bits[0] + 2 * Weigh(bits[1..])
  }

  function Pow2(k: nat): nat
  {
    if k == 0 then 1 else 2 * Pow2(k - 1)
  }

  /**
   * The eight fields from the first eight bits, in `_STATUS_BYTE_BITMAP` order:
   * bit 0 through `Status.from_flag`, bits 1 to 7 through their two-valued enums.
   */
  function FromBits(b: seq<Bit>): AxisStatus
    requires |b| >= 8
  {
    AxisStatus(
      FromFlag(Num(b[0])).value,
      if b[1] == 0 then AxisDisabled else AxisEnabled,
      if b[2] == 0 then Inactive else Active,
      if b[3] == 0 then JoystickDisabled else JoystickEnabled,
      if b[4] == 0 then NotRamping else Ramping,
      if b[5] == 0 then Down else Up,
      if b[6] == 0 then Open else Closed,
      if b[7] == 0 then Open else Closed)
  }

  /** The bit each field stands for, in the same order. */
  function FieldBits(a: AxisStatus): (b: seq<Bit>)
    ensures |b| == 8
  {
    [ if a.status == Idle then 0 else 1,
      if a.enabled == AxisDisabled then 0 else 1,
      if a.motor == Inactive then 0 else 1,
      if a.joystick == JoystickDisabled then 0 else 1,
      if a.ramping == NotRamping then 0 else 1,
      if a.rampingDirection == Down then 0 else 1,
      if a.upperLimit == Open then 0 else 1,
      if a.lowerLimit == Open then 0 else 1 ]
  }

  /**
   * The status byte through `_STATUS_BYTE_BITMAP`. `zip` stops after the eighth
   * entry of the bitmap, so bits above 7 are never read.
   */
  function Decode(n: nat): AxisStatus
  {
    FromBits(LowBitsFirst(n, 8))
  }

  /**
   * `status_from_decimal`: `int(...)` of the argument, then the bit decode; a
   * string that is not an int, or a negative number (whose binary text starts
   * with `-`), raises ValueError.
   */
  function StatusFromDecimal(statusByte: StrOrInt): (r: Result<AxisStatus, Failure>)
    ensures statusByte.Num? ==> (r.Ok? <==> statusByte.n >= 0)
    ensures statusByte.Num? && statusByte.n >= 0 ==> r == Ok(Decode(statusByte.n))
    ensures statusByte.Str? ==> (r.Ok? <==> ParseInt(statusByte.s).Some? && ParseInt(statusByte.s).value >= 0)
    ensures statusByte.Str? && r.Ok? ==> r == Ok(Decode(ParseInt(statusByte.s).value))
  {
    var n := match statusByte
      case Num(n) => Some(n)
      case Str(s) => ParseInt(s);
    if n.Some? && n.value >= 0 then Ok(Decode(n.value)) else Err(ValueError)
  }

  /** The inverse of Decode: the eight fields packed back into a byte. */
  function Pack(a: AxisStatus): (n: nat)
    ensures n < 256
  {
    WeighBound(FieldBits(a));
    Weigh(FieldBits(a))
  }

  /** The binary digits of `n` weigh `n`. */
  lemma {:induction false} WeighOfLowBits(n: nat, width: nat)
    ensures Weigh(LowBitsFirst(n, width)) == n
    decreases n + width
  {
    if !(n == 0 && width == 0) {
      WeighOfLowBits(n / 2, if width > 0 then width - 1 else 0);
    }
  }

  /** A sequence of k bits weighs less than 2^k. */
  lemma {:induction false} WeighBound(bits: seq<Bit>)
    ensures Weigh(bits) < Pow2(|bits|)
  {
    if bits != [] {
      WeighBound(bits[1..]);
    }
  }

  /** Appending bits above the first |u| adds a multiple of 2^|u|. */
  lemma {:induction false} WeighAppend(u: seq<Bit>, v: seq<Bit>)
    ensures Weigh(u + v) == Weigh(u) + Pow2(|u|) * Weigh(v)
  {
    if u == [] {
      assert u + v == v;
    } else {
      assert (u + v)[1..] == u[1..] + v;
      WeighAppend(u[1..], v);
      Regroup(u[0], Weigh(u[1..]), Pow2(|u| - 1), Weigh(v));
    }
  }

  /** The step of WeighAppend, as plain arithmetic. */
  lemma Regroup(a: int, w: int, p: int, x: int)
    ensures a + 2 * (w + p * x) == (a + 2 * w) + (2 * p) * x
  {
  }

  /** Writing a weighed bit sequence back in binary, padded to its length, gives it back. */
  lemma {:induction false} LowBitsOfWeigh(bits: seq<Bit>)
    ensures LowBitsFirst(Weigh(bits), |bits|) == bits
  {
    if bits != [] {
      var w := Weigh(bits[1..]);
      assert Weigh(bits) % 2 == bits[0] && Weigh(bits) / 2 == w;
      LowBitsOfWeigh(bits[1..]);
      assert bits == [bits[0]] + bits[1..];
    }
  }

  /** The fields of the first eight bits give those bits back. */
  lemma FieldBitsOfFromBits(b: seq<Bit>)
    requires |b| >= 8
    ensures FieldBits(FromBits(b)) == b[..8]
  {
  }

  lemma ModOfSplit(n: nat, r: nat, q: nat)
    requires n == r + 256 * q && r < 256
    ensures n % 256 == r
  {
  }

  /** Decoding keeps exactly the low eight bits: packing the fields gives `n mod 256`. */
  lemma PackOfDecode(n: nat)
    ensures Pack(Decode(n)) == n % 256
  {
    var b := LowBitsFirst(n, 8);
    FieldBitsOfFromBits(b);
    WeighOfLowBits(n, 8);
    LowByte(b);
    ModOfSplit(n, Weigh(b[..8]), Weigh(b[8..]));
  }

  /** The first eight bits weigh less than 256; the rest count in multiples of 256. */
  lemma LowByte(b: seq<Bit>)
    requires |b| >= 8
    ensures Weigh(b[..8]) < 256
    ensures Weigh(b) == Weigh(b[..8]) + 256 * Weigh(b[8..])
  {
    assert b == b[..8] + b[8..];
    WeighAppend(b[..8], b[8..]);
    WeighBound(b[..8]);
    assert Pow2(8) == 256;
  }

  /** Every combination of the eight fields is the decode of exactly one byte. */
  lemma DecodeOfPack(a: AxisStatus)
    ensures Decode(Pack(a)) == a
  {
    LowBitsOfWeigh(FieldBits(a));
    FromBitsOfFieldBits(a);
  }

  /** Reading the fields back from their bits. */
  lemma FromBitsOfFieldBits(a: AxisStatus)
    ensures FromBits(FieldBits(a)) == a
  {
  }

  /** The decode is one-to-one on 0..255 and ignores everything above bit 7. */
  lemma DecodeInjective(n: nat, m: nat)
    ensures Decode(n) == Decode(m) <==> n % 256 == m % 256
  {
    PackOfDecode(n);
    PackOfDecode(m);
    if n % 256 == m % 256 {
      DecodeOfPack(Decode(n));
      DecodeOfPack(Decode(m));
    }
  }

  /** 210 is 11010010 in binary, as the repository's test decodes it. */
  lemma DecodeExample()
    ensures Decode(210) == AxisStatus(Idle, AxisEnabled, Inactive, JoystickDisabled, Ramping, Down, Closed, Closed)
  {
    var a := AxisStatus(Idle, AxisEnabled, Inactive, JoystickDisabled, Ramping, Down, Closed, Closed);
    assert FieldBits(a) == [0, 1, 0, 0, 1, 0, 1, 1];
    assert Pack(a) == 210;
    DecodeOfPack(a);
  }

  // The re-segmenting tokenizer of `statuses_for_rdstat`.

  predicate IsFlagChar(c: char) { c == 'B' || c == 'N' }

  /** A character at which `(\d+|[BN]|\s+)` cannot start a match. */
  predicate IsOtherChar(c: char) { !IsSpace(c) && !IsDigit(c) && !IsFlagChar(c) }

  predicate IsDigitRun(t: string) { |t| > 0 && AllDigits(t) }

  predicate IsOtherRun(t: string) { |t| > 0 && forall i :: 0 <= i < |t| ==> IsOtherChar(t[i]) }

  /** The three kinds of token the re-segmentation produces. */
  predicate IsToken(t: string) { IsDigitRun(t) || t == "B" || t == "N" || IsOtherRun(t) }

  /**
   * `" ".join(re.split(r"(\d+|[BN]|\s+)", s)).split()`: maximal digit runs, each
   * single `B` or `N`, and maximal runs of the remaining non-space characters, in
   * order; whitespace only separates.
   */
  function Tokenize(s: string): (tokens: seq<string>)
    ensures forall k :: 0 <= k < |tokens| ==> IsToken(tokens[k])
    decreases |s|
  {
    if s == [] then []
    else if IsSpace(s[0]) then Tokenize(s[1..])
    else [s[..TokenEnd(s)]] + Tokenize(s[TokenEnd(s)..])
  }

  /** Where the token at the start of `s` ends: one flag, or a whole run of its kind. */
  function TokenEnd(s: string): (n: nat)
    requires s != [] && !IsSpace(s[0])
    ensures 0 < n <= |s|
  {
    if IsFlagChar(s[0]) then 1 else if IsDigit(s[0]) then Span(s, IsDigit) else Span(s, IsOtherChar)
  }

  /** A token followed by anything that cannot extend it is split off whole. */
  lemma TokenizeTokenThen(t: string, rest: string)
    requires IsToken(t)
    requires IsDigitRun(t) ==> rest == [] || !IsDigit(rest[0])
    requires IsOtherRun(t) ==> rest == [] || !IsOtherChar(rest[0])
    ensures Tokenize(t + rest) == [t] + Tokenize(rest)
  {
    var s := t + rest;
    assert s[..|t|] == t;
    assert s[|t|..] == rest;
    if IsDigitRun(t) {
      SpanOfPrefix(t, rest, IsDigit);
    } else if IsOtherRun(t) {
      SpanOfPrefix(t, rest, IsOtherChar);
    }
  }

  /** Re-tokenizing space-separated tokens gives them back: the joined form is canonical. */
  lemma {:induction false} TokenizeOfJoin(ts: seq<string>)
    requires forall k :: 0 <= k < |ts| ==> IsToken(ts[k])
    ensures Tokenize(Join(" ", ts)) == ts
  {
    if |ts| == 1 {
      TokenizeTokenThen(ts[0], "");
      assert ts[0] + "" == ts[0];
    } else if |ts| > 1 {
      var rest := Join(" ", ts[1..]);
      assert Join(" ", ts) == ts[0] + (" " + rest);
      TokenizeTokenThen(ts[0], " " + rest);
      assert (" " + rest)[1..] == rest;
      TokenizeOfJoin(ts[1..]);
      assert ts == [ts[0]] + ts[1..];
    }
  }

  /** The string with its whitespace removed. */
  function WithoutSpaces(s: string): (r: string)
    ensures NoSpace(r)
  {
    if s == [] then [] else (if IsSpace(s[0]) then [] else [s[0]]) + WithoutSpaces(s[1..])
  }

  function Concat(ts: seq<string>): string
  {
    if ts == [] then [] else ts[0] + Concat(ts[1..])
  }

  lemma {:induction false} WithoutSpacesOfWordThen(w: string, t: string)
    requires NoSpace(w)
    ensures WithoutSpaces(w + t) == w + WithoutSpaces(t)
  {
    if w == [] {
      assert w + t == t;
    } else {
      assert (w + t)[1..] == w[1..] + t;
      WithoutSpacesOfWordThen(w[1..], t);
      assert w == [w[0]] + w[1..];
    }
  }

  /** Away from whitespace, the first token is a non-empty, space-free prefix. */
  lemma TokenizeFirst(s: string) returns (n: nat)
    requires s != [] && !IsSpace(s[0])
    ensures 0 < n <= |s| && NoSpace(s[..n])
    ensures Tokenize(s) == [s[..n]] + Tokenize(s[n..])
  {
    n := TokenEnd(s);
  }

  /** The tokenizer loses and invents nothing: the tokens spell out the non-space characters. */
  lemma {:induction false} TokenizeKeepsCharacters(s: string)
    ensures Concat(Tokenize(s)) == WithoutSpaces(s)
    decreases |s|
  {
    if s != [] {
      if IsSpace(s[0]) {
        TokenizeKeepsCharacters(s[1..]);
      } else {
        var n := TokenizeFirst(s);
        var head, tail := s[..n], s[n..];
        assert Concat(Tokenize(s)) == head + Concat(Tokenize(tail)) by {
          var tokens := Tokenize(s);
          assert tokens[0] == head && tokens[1..] == Tokenize(tail);
        }
        TokenizeKeepsCharacters(tail);
        assert s == head + tail;
        WithoutSpacesOfWordThen(head, tail);
      }
    }
  }

  /**
   * No two neighbouring tokens could have been one token: the regex takes digit
   * runs whole, and the pieces between its matches are whole runs of the other
   * characters, so two digit runs never touch and neither do two other runs.
   */
  predicate Maximal(ts: seq<string>) {
    forall k :: 0 <= k < |ts| - 1 ==>
      !(IsDigitRun(ts[k]) && IsDigitRun(ts[k + 1])) && !(IsOtherRun(ts[k]) && IsOtherRun(ts[k + 1]))
  }

  /** The tokens of each whitespace-free word in turn. */
  function TokenizeEach(words: seq<string>): seq<string>
  {
    if words == [] then [] else Tokenize(words[0]) + TokenizeEach(words[1..])
  }

  /** A run of characters that `p` accepts ends where `w` does when what follows fails `p`. */
  lemma {:induction false} SpanAppend(w: string, rest: string, p: char -> bool)
    requires rest == [] || !p(rest[0])
    ensures Span(w + rest, p) == Span(w, p)
  {
    if w == [] {
      assert w + rest == rest;
    } else if p(w[0]) {
      assert (w + rest)[1..] == w[1..] + rest;
      SpanAppend(w[1..], rest, p);
    }
  }

  /** Whitespace after a word ends its last token: the word is tokenized on its own. */
  lemma {:induction false} TokenizeWordThen(w: string, rest: string)
    requires NoSpace(w)
    requires rest == [] || IsSpace(rest[0])
    ensures Tokenize(w + rest) == Tokenize(w) + Tokenize(rest)
    decreases |w|
  {
    if w == [] {
      assert w + rest == rest;
    } else {
      var n := TokenEnd(w);
      TokenEndBeforeSpace(w, rest);
      AppendSlices(w, rest, n);
      TokenizeWordThen(w[n..], rest);
    }
  }

  /** The first token of a word ends inside the word, whatever follows a space. */
  lemma TokenEndBeforeSpace(w: string, rest: string)
    requires w != [] && !IsSpace(w[0])
    requires rest == [] || IsSpace(rest[0])
    ensures (w + rest)[0] == w[0] && TokenEnd(w + rest) == TokenEnd(w)
  {
    assert (w + rest)[0] == w[0];
    if !IsFlagChar(w[0]) {
      if IsDigit(w[0]) {
        SpanAppend(w, rest, IsDigit);
      } else {
        SpanAppend(w, rest, IsOtherChar);
      }
    }
  }

  lemma AppendSlices(w: string, rest: string, n: nat)
    requires n <= |w|
    ensures (w + rest)[..n] == w[..n] && (w + rest)[n..] == w[n..] + rest
  {
  }

  /**
   * The tokens of a reply are the tokens of its whitespace-separated words in
   * turn: no token spans whitespace, and whitespace adds none.
   */
  lemma {:induction false} TokenizeByWords(s: string)
    ensures Tokenize(s) == TokenizeEach(Words(s))
    decreases |s|
  {
    if s != [] {
      if IsSpace(s[0]) {
        TokenizeByWords(s[1..]);
      } else {
        var n := Span(s, NotSpace);
        var w, rest := s[..n], s[n..];
        assert s == w + rest;
        TokenizeWordThen(w, rest);
        TokenizeByWords(rest);
        assert Words(s) == [w] + Words(rest);
        assert ([w] + Words(rest))[1..] == Words(rest);
      }
    }
  }

  /** Within a word the tokens are maximal. */
  lemma {:induction false} TokenizeWordIsMaximal(w: string)
    requires NoSpace(w)
    ensures Maximal(Tokenize(w))
    decreases |w|
  {
    if w != [] {
      var n := TokenEnd(w);
      var t, rest := w[..n], w[n..];
      assert Tokenize(w) == [t] + Tokenize(rest);
      TokenizeWordIsMaximal(rest);
      if rest != [] {
        TokenEndStops(w);
        var m := TokenizeFirst(rest);
        assert rest[..m][0] == w[n];
        MaximalCons(t, Tokenize(rest));
      }
    }
  }

  /**
   * The character after a word's first token cannot extend it, so no token
   * that starts there is a run of the same kind.
   */
  lemma TokenEndStops(w: string)
    requires w != [] && !IsSpace(w[0]) && TokenEnd(w) < |w|
    ensures var n := TokenEnd(w);
      forall u: string :: u != [] && u[0] == w[n] ==>
        !(IsDigitRun(w[..n]) && IsDigitRun(u)) && !(IsOtherRun(w[..n]) && IsOtherRun(u))
  {
  }

  lemma MaximalCons(t: string, ts: seq<string>)
    requires Maximal(ts)
    requires ts != [] ==> !(IsDigitRun(t) && IsDigitRun(ts[0])) && !(IsOtherRun(t) && IsOtherRun(ts[0]))
    ensures Maximal([t] + ts)
  {
    var us := [t] + ts;
    forall k | 0 <= k < |us| - 1
      ensures !(IsDigitRun(us[k]) && IsDigitRun(us[k + 1])) && !(IsOtherRun(us[k]) && IsOtherRun(us[k + 1]))
    {
      if k > 0 {
        assert us[k] == ts[k - 1] && us[k + 1] == ts[k];
      }
    }
  }

  /**
   * The tokenizer is the only maximal tokenization: any sequence of tokens in
   * which no two neighbours could merge is what `Tokenize` makes of their
   * concatenation.
   */
  lemma {:induction false} TokenizeOfMaximal(ts: seq<string>)
    requires forall k :: 0 <= k < |ts| ==> IsToken(ts[k])
    requires Maximal(ts)
    ensures Tokenize(Concat(ts)) == ts
  {
    if ts != [] {
      var rest := Concat(ts[1..]);
      assert Maximal(ts[1..]) by {
        forall k | 0 <= k < |ts[1..]| - 1
          ensures !(IsDigitRun(ts[1..][k]) && IsDigitRun(ts[1..][k + 1]))
          ensures !(IsOtherRun(ts[1..][k]) && IsOtherRun(ts[1..][k + 1]))
        {
          assert ts[1..][k] == ts[k + 1] && ts[1..][k + 1] == ts[k + 2];
        }
      }
      TokenizeOfMaximal(ts[1..]);
      if |ts| > 1 {
        assert rest == ts[1] + Concat(ts[2..]) by {
          assert ts[1..][1..] == ts[2..];
        }
        assert rest[0] == ts[1][0];
      }
      TokenizeTokenThen(ts[0], rest);
      assert ts == [ts[0]] + ts[1..];
    }
  }

  /** One entry of an `RS` reply: a coarse marker or a decoded byte. */
  datatype RdstatEntry = Coarse(status: Status) | Fine(axis: AxisStatus)

  /** `status_for_rdstat`: the coarse marker first, the decimal byte otherwise. */
  function StatusForRdstat(token: string): (r: Result<RdstatEntry, Failure>)
    ensures token == "N" ==> r == Ok(Coarse(Idle))
    ensures token == "B" ==> r == Ok(Coarse(Busy))
    ensures IsDigitRun(token) ==> r == Ok(Fine(Decode(LiteralValue(token))))
    ensures IsOtherRun(token) ==> r == Err(ValueError)
    ensures token != "N" && token != "B" ==>
      r == match StatusFromDecimal(Str(token)) case Ok(a) => Ok(Fine(a)) case Err(e) => Err(e)
  {
    DigitRunParses(token);
    match StatusOfValue(token)
    case Ok(s) => Ok(Coarse(s))
    case Err(_) =>
      match StatusFromDecimal(Str(token))
      case Ok(a) => Ok(Fine(a))
      case Err(e) => Err(e)
  }

  /** A digit run parses as the int it spells, and a run of other characters does not parse. */
  lemma DigitRunParses(token: string)
    ensures IsDigitRun(token) ==> ParseInt(token) == Some(LiteralValue(token))
    ensures IsOtherRun(token) ==> ParseInt(token) == None
  {
    if IsOtherRun(token) {
      assert NoDigit(token);
      ParseIntWithoutDigits(token);
    } else if IsDigitRun(token) {
      ParseIntOfDigits(token);
    }
  }

  /** `list(map(status_for_rdstat, tokens))`: the first failure propagates. */
  function StatusesOfTokens(tokens: seq<string>): (r: Result<seq<RdstatEntry>, Failure>)
    ensures r.Ok? <==> forall k :: 0 <= k < |tokens| ==> StatusForRdstat(tokens[k]).Ok?
    ensures r.Ok? ==> |r.value| == |tokens|
    ensures r.Ok? ==> forall k :: 0 <= k < |tokens| ==> r.value[k] == StatusForRdstat(tokens[k]).value
  {
    if tokens == [] then Ok([])
    else
      match StatusForRdstat(tokens[0])
      case Err(e) => Err(e)
      case Ok(first) =>
        match StatusesOfTokens(tokens[1..])
        case Err(e) => Err(e)
        case Ok(rest) => Ok([first] + rest)
  }

  /** The tokens of a reply after its leading status marker. */
  function AxisTokens(response: string): seq<string>
  {
    var tokens := Tokenize(response);
    if |tokens| > 0 then tokens[1..] else []
  }

  /** `statuses_for_rdstat`: re-segment, drop the leading marker, decode each token. */
  function StatusesForRdstat(response: string): (r: Result<seq<RdstatEntry>, Failure>)
    ensures r.Ok? <==> forall k :: 0 <= k < |AxisTokens(response)| ==> !IsOtherRun(AxisTokens(response)[k])
    ensures r.Ok? ==> |r.value| == |AxisTokens(response)|
    ensures r.Ok? ==> forall k :: 0 <= k < |r.value| ==>
      var t := AxisTokens(response)[k];
      (r.value[k].Coarse? <==> t == "N" || t == "B") && r.value[k] == StatusForRdstat(t).value
  {
    StatusesOfTokens(AxisTokens(response))
  }

  /** Whitespace only separates tokens. */
  lemma TokenizeAfterSpace(c: char, t: string)
    requires IsSpace(c)
    ensures Tokenize([c] + t) == Tokenize(t)
  {
    assert ([c] + t)[1..] == t;
  }

  /** A flag, one space and a byte. */
  lemma TokenizeFlagThenByte(byte: string)
    requires IsDigitRun(byte)
    ensures Tokenize("N" + (" " + byte)) == ["N", byte]
  {
    assert Tokenize(byte) == [byte] by {
      TokenizeTokenThen(byte, "");
      assert byte + "" == byte;
    }
    TokenizeAfterSpace(' ', byte);
    TokenizeTokenThen("N", " " + byte);
  }

  /**
   * A marker, two spaces, a byte, a flag glued to it, one space and a byte: the
   * shape of the `RS` reply in the repository's test.
   */
  lemma TokenizeReplyShape(marker: string, first: string, second: string)
    requires IsOtherRun(marker) && IsDigitRun(first) && IsDigitRun(second)
    ensures Tokenize(marker + ("  " + (first + ("N" + (" " + second))))) == [marker, first, "N", second]
  {
    var s1 := first + ("N" + (" " + second));
    TokenizeByteFlagByte(first, second);
    TokenizeAfterTwoSpaces(s1);
    assert ("  " + s1)[0] == ' ';
    TokenizeTokenThen(marker, "  " + s1);
  }

  /** A byte, a flag glued to it, one space and a byte. */
  lemma TokenizeByteFlagByte(first: string, second: string)
    requires IsDigitRun(first) && IsDigitRun(second)
    ensures Tokenize(first + ("N" + (" " + second))) == [first, "N", second]
  {
    TokenizeFlagThenByte(second);
    TokenizeTokenThen(first, "N" + (" " + second));
  }

  /** Two leading spaces add no token. */
  lemma TokenizeAfterTwoSpaces(t: string)
    ensures Tokenize("  " + t) == Tokenize(t)
  {
    assert " " + t == [' '] + t;
    assert "  " + t == [' '] + (" " + t);
    TokenizeAfterSpace(' ', " " + t);
    TokenizeAfterSpace(' ', t);
  }

  /** The irregularly spaced reply of the repository's test is re-segmented into four tokens. */
  lemma TokenizeExample()
    ensures Tokenize(":A  10N 138") == [":A", "10", "N", "138"]
  {
    assert IsOtherRun(":A") && IsDigitRun("10") && IsDigitRun("138");
    TokenizeReplyShape(":A", "10", "138");
    RdstatReplyText();
  }

  lemma LiteralValueExamples()
    ensures LiteralValue("10") == 10 && LiteralValue("138") == 138
  {
    assert "10"[..1] == "1";
    assert "138"[..2] == "13";
    assert "13"[..1] == "1";
  }

  /** A marker then a byte, a flag and a byte: two fine entries around a coarse one. */
  lemma RdstatOfTokens(response: string, first: string, second: string)
    requires AxisTokens(response) == [first, "N", second]
    requires IsDigitRun(first) && IsDigitRun(second)
    ensures StatusesForRdstat(response)
      == Ok([Fine(Decode(LiteralValue(first))), Coarse(Idle), Fine(Decode(LiteralValue(second)))])
  {
    var ts := AxisTokens(response);
    var want := [Fine(Decode(LiteralValue(first))), Coarse(Idle), Fine(Decode(LiteralValue(second)))];
    assert forall k :: 0 <= k < 3 ==> StatusForRdstat(ts[k]) == Ok(want[k]);
    var r := StatusesOfTokens(ts);
    assert r.Ok? && |r.value| == 3;
    assert forall k :: 0 <= k < 3 ==> r.value[k] == want[k];
    assert r.value == want;
    assert StatusesForRdstat(response) == r;
  }

  /** The `RS` reply shape decodes to two fine entries around a coarse one. */
  lemma RdstatOfReplyShape(marker: string, first: string, second: string)
    requires IsOtherRun(marker) && IsDigitRun(first) && IsDigitRun(second)
    ensures StatusesForRdstat(marker + ("  " + (first + ("N" + (" " + second)))))
      == Ok([Fine(Decode(LiteralValue(first))), Coarse(Idle), Fine(Decode(LiteralValue(second)))])
  {
    var s := marker + ("  " + (first + ("N" + (" " + second))));
    TokenizeReplyShape(marker, first, second);
    assert AxisTokens(s) == [first, "N", second];
    RdstatOfTokens(s, first, second);
  }

  /** Three entries, the middle one coarse, as the repository's test decodes them. */
  lemma RdstatExample()
    ensures StatusesForRdstat(":A  10N 138") == Ok([Fine(Decode(10)), Coarse(Idle), Fine(Decode(138))])
  {
    assert IsOtherRun(":A") && IsDigitRun("10") && IsDigitRun("138");
    RdstatOfReplyShape(":A", "10", "138");
    LiteralValueExamples();
    RdstatReplyText();
  }

  /** The test's `RS` reply, spelled in the pieces of its shape. */
  lemma RdstatReplyText()
    ensures ":A" + ("  " + ("10" + ("N" + (" " + "138")))) == ":A  10N 138"
  {
  }
}
