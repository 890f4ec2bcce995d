/** The string operations the tracepoint parser is made of, and how each undoes concatenation. */
module Text {
  import opened Common

  /** Unicode's White_Space property. */
  predicate IsSpace(c: char) {
    || '\t' <= c <= '\r'
    || c == ' '
    || c == '\U{0085}' || c == '\U{00A0}' || c == '\U{1680}'
    || '\U{2000}' <= c <= '\U{200A}'
    || c == '\U{2028}' || c == '\U{2029}' || c == '\U{202F}' || c == '\U{205F}' || c == '\U{3000}'
  }

  predicate AllSpace(s: string) {
    forall c :: c in s ==> IsSpace(c)
  }

  predicate NoSpace(s: string) {
    forall c :: c in s ==> !IsSpace(c)
  }

  predicate StartsSolid(s: string) {
    s != "" && !IsSpace(s[0])
  }

  predicate EndsSolid(s: string) {
    s != "" && !IsSpace(s[|s| - 1])
  }

  // ----- trimming -----

  function TrimStart(s: string): string {
    if s != "" && IsSpace(s[0]) then TrimStart(s[1..]) else s
  }

  function TrimEnd(s: string): string {
    if s != "" && IsSpace(s[|s| - 1]) then TrimEnd(s[..|s| - 1]) else s
  }

  function Trim(s: string): string {
    TrimEnd(TrimStart(s))
  }

  lemma {:induction false} TrimStartDrops(pad: string, s: string)
    requires AllSpace(pad) && (s == "" || StartsSolid(s))
    ensures TrimStart(pad + s) == s
  {
    if pad == "" {
      assert pad + s == s;
    } else {
      assert (pad + s)[1..] == pad[1..] + s;
      TrimStartDrops(pad[1..], s);
    }
  }

  lemma {:induction false} TrimEndKeeps(s: string, rest: string)
    requires s == "" || EndsSolid(s)
    ensures TrimEnd(s + rest) == s + TrimEnd(rest)
  {
    if rest == "" {
      assert s + rest == s == s + TrimEnd(rest);
    } else {
      assert (s + rest)[..|s + rest| - 1] == s + rest[..|rest| - 1];
      TrimEndKeeps(s, rest[..|rest| - 1]);
    }
  }

  lemma {:induction false} TrimEndOfSpace(s: string)
    requires AllSpace(s)
    ensures TrimEnd(s) == ""
  {
    if s != "" {
      TrimEndOfSpace(s[..|s| - 1]);
    }
  }

  /** Trimming text around a solid core loses only padding. */
  lemma TrimAround(pad: string, core: string, rest: string)
    requires AllSpace(pad) && StartsSolid(core) && EndsSolid(core)
    ensures Trim(pad + core + rest) == core + TrimEnd(rest)
  {
    assert pad + core + rest == pad + (core + rest);
    TrimStartDrops(pad, core + rest);
    TrimEndKeeps(core, rest);
  }

  lemma {:induction false} TrimEndIsPrefix(s: string)
    ensures |TrimEnd(s)| <= |s| && TrimEnd(s) == s[..|TrimEnd(s)|]
    ensures TrimEnd(s) == "" || EndsSolid(TrimEnd(s))
  {
    if s != "" && IsSpace(s[|s| - 1]) {
      TrimEndIsPrefix(s[..|s| - 1]);
    }
  }

  // ----- prefixes -----

  function StripPrefix(s: string, prefix: string): Option<string> {
    if prefix <= s then Some(s[|prefix|..]) else None
  }

  lemma StripPrefixOf(prefix: string, s: string)
    ensures StripPrefix(prefix + s, prefix) == Some(s)
  {
    assert (prefix + s)[|prefix|..] == s;
  }

  // ----- splitting -----

  function SplitOnce(s: string, c: char): Option<(string, string)> {
    if s == "" then None
    else if s[0] == c then Some(("", s[1..]))
    else
      match SplitOnce(s[1..], c)
      case Some((before, after)) => Some(([s[0]] + before, after))
      case None => None
  }

  lemma {:induction false} SplitOnceJoins(s: string, c: char)
    ensures SplitOnce(s, c).None? <==> c !in s
    ensures var r := SplitOnce(s, c);
            r.Some? ==> c !in r.value.0 && s == r.value.0 + [c] + r.value.1
  {
    if s != "" && s[0] != c {
      SplitOnceJoins(s[1..], c);
      assert s == [s[0]] + s[1..];
    }
  }

  lemma {:induction false} SplitOnceAt(before: string, c: char, after: string)
    requires c !in before
    ensures SplitOnce(before + [c] + after, c) == Some((before, after))
  {
    var s := before + [c] + after;
    if before == "" {
      assert s[1..] == after;
    } else {
      assert s[1..] == before[1..] + [c] + after;
      SplitOnceAt(before[1..], c, after);
      assert before == [before[0]] + before[1..];
    }
  }

  function Split(s: string, c: char): seq<string>
    decreases |s|
  {
    match SplitOnce(s, c)
    case None => [s]
    case Some((before, after)) =>
      SplitOnceJoins(s, c);
      [before] + Split(after, c)
  }

  lemma SplitHead(before: string, c: char, after: string)
    requires c !in before
    ensures Split(before + [c] + after, c) == [before] + Split(after, c)
  {
    SplitOnceAt(before, c, after);
  }

  /** What comes before the first `c`, or all of it. */
  function BeforeFirst(s: string, c: char): string {
    match SplitOnce(s, c)
    case Some((before, _)) => before
    case None => s
  }

  // ----- lines -----

  function WithoutReturn(line: string): string {
    if line != "" && line[|line| - 1] == '\r' then line[..|line| - 1] else line
  }

  /** Lines end at `\n` or `\r\n`; an unended last line is kept as it is, an empty one is not. */
  function Lines(text: string): seq<string>
    decreases |text|
  {
    match SplitOnce(text, '\n')
    case Some((line, rest)) =>
      SplitOnceJoins(text, '\n');
      [WithoutReturn(line)] + Lines(rest)
    case None => if text == "" then [] else [text]
  }

  lemma LinesHead(line: string, rest: string)
    requires '\n' !in line
    ensures Lines(line + "\n" + rest) == [WithoutReturn(line)] + Lines(rest)
  {
    SplitOnceAt(line, '\n', rest);
  }

  function EndEach(lines: seq<string>, ending: string): string {
    if lines == [] then "" else lines[0] + ending + EndEach(lines[1..], ending)
  }

  lemma LineEnded(line: string, rest: string, ending: string)
    requires ending == "\n" || ending == "\r" + "\n"
    requires '\n' !in line && (line == "" || line[|line| - 1] != '\r')
    ensures Lines(line + ending + rest) == [line] + Lines(rest)
  {
    if ending == "\n" {
      LinesHead(line, rest);
    } else {
      LinesHead(line + "\r", rest);
      assert line + ending + rest == line + "\r" + "\n" + rest;
      assert WithoutReturn(line + "\r") == line;
    }
  }

  /** Lines ended either way are the lines, without their endings. */
  lemma {:induction false} LinesAreTheLines(lines: seq<string>, ending: string)
    requires ending == "\n" || ending == "\r" + "\n"
    requires forall line :: line in lines ==> '\n' !in line && (line == "" || line[|line| - 1] != '\r')
    ensures Lines(EndEach(lines, ending)) == lines
  {
    if lines != [] {
      LinesAreTheLines(lines[1..], ending);
      LineEnded(lines[0], EndEach(lines[1..], ending), ending);
    }
  }

  // ----- tokens -----

  /** The part of `s` after its last white space. */
  function AfterLastSpace(s: string): string {
    if s == "" || IsSpace(s[|s| - 1]) then "" else AfterLastSpace(s[..|s| - 1]) + [s[|s| - 1]]
  }

  /** The last of the white-space separated tokens. */
  function LastToken(s: string): Option<string> {
    var trimmed := TrimEnd(s);
    if trimmed == "" then None else Some(AfterLastSpace(trimmed))
  }

  lemma {:induction false} AfterLastSpaceIs(before: string, token: string)
    requires before == "" || IsSpace(before[|before| - 1])
    requires NoSpace(token)
    ensures AfterLastSpace(before + token) == token
  {
    var s := before + token;
    if token == "" {
      assert s == before;
    } else {
      assert s[..|s| - 1] == before + token[..|token| - 1];
      assert token[|token| - 1] in token;
      AfterLastSpaceIs(before, token[..|token| - 1]);
    }
  }

  lemma LastTokenIs(before: string, token: string, after: string)
    requires before == "" || IsSpace(before[|before| - 1])
    requires NoSpace(token) && token != "" && AllSpace(after)
    ensures LastToken(before + token + after) == Some(token)
  {
    assert token[|token| - 1] in token;
    assert (before + token)[|before + token| - 1] == token[|token| - 1];
    TrimEndKeeps(before + token, after);
    TrimEndOfSpace(after);
    assert TrimEnd(before + token + after) == before + token;
    AfterLastSpaceIs(before, token);
  }

  lemma {:induction false} AfterLastSpaceIsToken(s: string)
    ensures NoSpace(AfterLastSpace(s))
    ensures forall c :: c in AfterLastSpace(s) ==> c in s
  {
    if s != "" && !IsSpace(s[|s| - 1]) {
      AfterLastSpaceIsToken(s[..|s| - 1]);
    }
  }

  lemma LastTokenIsToken(s: string)
    requires LastToken(s).Some?
    ensures NoSpace(LastToken(s).value)
    ensures forall c :: c in LastToken(s).value ==> c in s
  {
    TrimEndIsPrefix(s);
    AfterLastSpaceIsToken(TrimEnd(s));
  }

  // ----- leading stars -----

  function TrimStars(s: string): string {
    if s != "" && s[0] == '*' then TrimStars(s[1..]) else s
  }

  function Stars(n: nat): string {
    if n == 0 then "" else "*" + Stars(n - 1)
  }

  lemma {:induction false} TrimStarsDrops(n: nat, s: string)
    requires s == "" || s[0] != '*'
    ensures TrimStars(Stars(n) + s) == s
  {
    if n == 0 {
      assert Stars(n) + s == s;
    } else {
      assert (Stars(n) + s)[1..] == Stars(n - 1) + s;
      TrimStarsDrops(n - 1, s);
    }
  }

  lemma {:induction false} TrimStarsLeaves(s: string)
    ensures TrimStars(s) == "" || TrimStars(s)[0] != '*'
    ensures forall c :: c in TrimStars(s) ==> c in s
  {
    if s != "" && s[0] == '*' {
      TrimStarsLeaves(s[1..]);
    }
  }

  // ----- unsigned decimals -----

  predicate IsDigit(c: char) {
    '0' <= c <= '9'
  }

  function DigitValue(c: char): nat
    requires IsDigit(c)
  {
    c as int - '0' as int
  }

  predicate AllDigits(s: string) {
    forall c :: c in s ==> IsDigit(c)
  }

  function Value(s: string): nat
    requires AllDigits(s)
  {
    if s == "" then 0 else 10 * Value(s[..|s| - 1]) + DigitValue(s[|s| - 1])
  }

  /** Parsing a 64-bit unsigned number: one leading plus sign is taken, anything else but
      digits is refused, and so is a value that does not fit. */
  function ParseUsize(s: string): Option<nat> {
    var digits := if s != "" && s[0] == '+' then s[1..] else s;
    if digits != "" && AllDigits(digits) && Value(digits) <= U64_MAX then Some(Value(digits)) else None
  }

  function Digit(d: nat): (c: char)
    requires d < 10
    ensures IsDigit(c) && DigitValue(c) == d
  {
    ('0' as int + d) as char
  }

  function Decimal(n: nat): (s: string)
    ensures s != "" && AllDigits(s)
  {
    if n < 10 then [Digit(n)] else Decimal(n / 10) + [Digit(n % 10)]
  }

  lemma {:induction false} DecimalValue(n: nat)
    ensures Value(Decimal(n)) == n
  {
    var s := Decimal(n);
    if n < 10 {
      assert s[..|s| - 1] == "";
    } else {
      DecimalValue(n / 10);
      assert s[..|s| - 1] == Decimal(n / 10);
    }
  }

  /** Reading back a printed number gives it, exactly when it fits. */
  lemma DecimalParses(n: nat)
    ensures ParseUsize(Decimal(n)) == if n <= U64_MAX then Some(n) else None
  {
    DecimalValue(n);
    assert Decimal(n)[0] in Decimal(n);
  }

  function Zeros(n: nat): string {
    if n == 0 then "" else Zeros(n - 1) + "0"
  }

  lemma {:induction false} ZerosAreNothing(n: nat, s: string)
    requires AllDigits(s)
    ensures AllDigits(Zeros(n) + s) && Value(Zeros(n) + s) == Value(s)
    decreases |s|, n
  {
    var t := Zeros(n) + s;
    if s != "" {
      ZerosAreNothing(n, s[..|s| - 1]);
      assert t[..|t| - 1] == Zeros(n) + s[..|s| - 1];
    } else if n > 0 {
      ZerosAreNothing(n - 1, "");
      assert t == Zeros(n) && t[..|t| - 1] == Zeros(n - 1) == Zeros(n - 1) + "";
    }
  }

  /** Any digits are a decimal after some zeros. */
  lemma {:induction false} DigitsAreDecimal(s: string) returns (n: nat)
    requires AllDigits(s) && s != ""
    ensures s == Zeros(n) + Decimal(Value(s))
  {
    var t, c := s[..|s| - 1], s[|s| - 1];
    assert s == t + [c] && c in s;
    DigitIsItsValue(c);
    if t == "" {
      n := 0;
    } else {
      var m := DigitsAreDecimal(t);
      if Value(t) == 0 {
        n := m + 1;
        assert Decimal(0) == "0";
        assert s == Zeros(m) + "0" + [c];
      } else {
        n := m;
        assert Value(s) / 10 == Value(t) && Value(s) % 10 == DigitValue(c);
        assert s == Zeros(m) + (Decimal(Value(t)) + [c]);
      }
    }
  }

  lemma DigitIsItsValue(c: char)
    requires IsDigit(c)
    ensures Digit(DigitValue(c)) == c
  {
  }

  /** Exactly what is accepted: an optional plus sign, any zeros, and a decimal that fits 64 bits. */
  lemma ParsesIff(s: string, n: nat)
    ensures ParseUsize(s) == Some(n) <==>
            n <= 0xFFFF_FFFF_FFFF_FFFF && exists zeros: nat :: s == Zeros(zeros) + Decimal(n) || s == "+" + (Zeros(zeros) + Decimal(n))
  {
    if ParseUsize(s) == Some(n) {
      var digits := if s != "" && s[0] == '+' then s[1..] else s;
      var zeros := DigitsAreDecimal(digits);
      assert s != digits ==> s == "+" + digits;
    }
    if zeros: nat :| n <= U64_MAX && (s == Zeros(zeros) + Decimal(n) || s == "+" + (Zeros(zeros) + Decimal(n))) {
      var digits := Zeros(zeros) + Decimal(n);
      ZerosAreNothing(zeros, Decimal(n));
      DecimalValue(n);
      assert digits[0] in digits;
      assert s == digits || s[1..] == digits;
    }
  }
}
