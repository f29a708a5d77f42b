/** The textual encoding the storage namespaces hold: `JSON.stringify` on
    the way in and `JSON.parse` on the way out, restricted to the scalar
    values a cell holds. Encode writes the text JSON.stringify writes;
    Decode reads back exactly the texts Encode writes and refuses every
    other text, and the two are proved inverse in both directions. */
module Json {
  import opened Types

  // ----- Numbers -------------------------------------------------------

  predicate IsDigit(c: char) {
    '0' <= c <= '9'
  }

  function DigitChar(d: nat): (c: char)
    requires d < 10
    ensures IsDigit(c)
  {
    ('0' as int + d) as char
  }

  function DigitValue(c: char): (d: nat)
    requires IsDigit(c)
    ensures d < 10 && DigitChar(d) == c
  {
    c as int - '0' as int
  }

  /** The decimal digits of `n`, most significant first. */
  function NatText(n: nat): (s: string)
    ensures s != [] && IsDigit(s[0])
  {
    if n < 10 then [DigitChar(n)] else NatText(n / 10) + [DigitChar(n % 10)]
  }

  predicate AllDigits(s: string) {
    forall i :: 0 <= i < |s| ==> IsDigit(s[i])
  }

  /** A JSON integer without sign: digits, with no leading zero unless the
      number is zero itself. */
  predicate CanonicalDigits(s: string) {
    s != [] && AllDigits(s) && (s[0] == '0' ==> |s| == 1)
  }

  /** The number a string of digits denotes. */
  function DigitsValue(s: string): nat
    requires AllDigits(s)
  {
    if s == [] then 0 else DigitsValue(s[..|s| - 1]) * 10 + DigitValue(s[|s| - 1])
  }

  lemma {:induction false} NatTextIsCanonical(n: nat)
    ensures CanonicalDigits(NatText(n)) && DigitsValue(NatText(n)) == n
  {
    var s := NatText(n);
    if n < 10 {
      assert s[..|s| - 1] == [];
    } else {
      var t := NatText(n / 10);
      NatTextIsCanonical(n / 10);
      assert s == t + [DigitChar(n % 10)];
      assert s[..|s| - 1] == t;
    }
  }

  lemma {:induction false} CanonicalDigitsAreNatText(s: string)
    requires CanonicalDigits(s)
    ensures NatText(DigitsValue(s)) == s
    decreases |s|
  {
    var p := s[..|s| - 1];
    if |s| == 1 {
      assert p == [];
      assert [s[0]] == s;
    } else {
      assert CanonicalDigits(p);
      CanonicalDigitsAreNatText(p);
      var v := DigitsValue(s);
      var d := DigitValue(s[|s| - 1]);
      assert v / 10 == DigitsValue(p) && v % 10 == d;
      assert s == p + [s[|s| - 1]];
    }
  }

  // ----- Strings -------------------------------------------------------

  const Backspace: char := 8 as char
  const Tab: char := 9 as char
  const LineFeed: char := 10 as char
  const FormFeed: char := 12 as char
  const CarriageReturn: char := 13 as char

  /** The character JSON.stringify writes after a backslash for `c`, when
      it uses a two-character escape for it. */
  function ShortEscape(c: char): Option<char> {
    if c == '"' then Some('"')
    else if c == '\\' then Some('\\')
    else if c == Backspace then Some('b')
    else if c == Tab then Some('t')
    else if c == LineFeed then Some('n')
    else if c == FormFeed then Some('f')
    else if c == CarriageReturn then Some('r')
    else None
  }

  /** The character a two-character escape `\e` stands for. */
  function ShortUnescape(e: char): (r: Option<char>)
    ensures r.None? ==> forall c :: ShortEscape(c) != Some(e)
    ensures r.Some? ==> ShortEscape(r.value) == Some(e)
  {
    if e == '"' then Some('"')
    else if e == '\\' then Some('\\')
    else if e == 'b' then Some(Backspace)
    else if e == 't' then Some(Tab)
    else if e == 'n' then Some(LineFeed)
    else if e == 'f' then Some(FormFeed)
    else if e == 'r' then Some(CarriageReturn)
    else None
  }

  /** Lower-case hexadecimal digit, as in JSON.stringify's `\u001f`. */
  function HexDigit(d: nat): char
    requires d < 16
  {
    if d < 10 then DigitChar(d) else ('a' as int + d - 10) as char
  }

  function HexValue(c: char): (r: Option<nat>)
    ensures r.Some? ==> r.value < 16 && HexDigit(r.value) == c
  {
    if '0' <= c <= '9' then Some(c as int - '0' as int)
    else if 'a' <= c <= 'f' then Some(c as int - 'a' as int + 10)
    else None
  }

  /** How JSON.stringify writes one character inside a string literal. */
  function EscapeChar(c: char): string {
    match ShortEscape(c)
    case Some(e) => ['\\', e]
    case None =>
      if c < ' ' then ['\\', 'u', '0', '0', HexDigit(c as int / 16), HexDigit(c as int % 16)]
      else [c]
  }

  function Escape(s: string): string {
    if s == [] then [] else EscapeChar(s[0]) + Escape(s[1..])
  }

  function Prepend(c: char, r: Option<(string, string)>): Option<(string, string)> {
    match r
    case None => None
    case Some((x, rest)) => Some(([c] + x, rest))
  }

  /** Reads one character of a string body that is not its closing quote:
      the character it stands for and how many characters of `s` spell it.
      None where JSON.parse would throw. */
  function ReadUnit(s: string): (r: Option<(char, nat)>)
    requires s != []
    ensures r.Some? ==> 0 < r.value.1 <= |s|
  {
    if s[0] == '\\' then
      if |s| >= 2 && ShortUnescape(s[1]).Some? then Some((ShortUnescape(s[1]).value, 2))
      else if |s| >= 6 && s[1] == 'u' && s[2] == '0' && s[3] == '0'
              && (s[4] == '0' || s[4] == '1') && HexValue(s[5]).Some? then
        var code := (if s[4] == '1' then 16 else 0) + HexValue(s[5]).value;
        if ShortEscape(code as char).None? then Some((code as char, 6)) else None
      else None
    else if s[0] < ' ' || s[0] == '"' then None
    else Some((s[0], 1))
  }

  /** Reads the body of a string literal up to its closing quote: the
      characters it stands for and the text after the quote. */
  function ParseStringBody(s: string): Option<(string, string)>
    decreases |s|
  {
    if s == [] then None
    else if s[0] == '"' then Some(([], s[1..]))
    else match ReadUnit(s)
      case None => None
      case Some((c, n)) => Prepend(c, ParseStringBody(s[n..]))
  }

  /** ReadUnit reads back what EscapeChar writes. */
  lemma ReadEscapedUnit(c: char, t: string)
    ensures ReadUnit(EscapeChar(c) + t) == Some((c, |EscapeChar(c)|))
  {
    var s := EscapeChar(c) + t;
    match ShortEscape(c)
    case Some(e) =>
    case None =>
      if c < ' ' {
        var code := c as int;
        assert s[1] == 'u' && ShortUnescape('u').None?;
        assert s[4] == HexDigit(code / 16) && s[5] == HexDigit(code % 16);
        assert HexValue(s[5]) == Some(code % 16);
        assert (if s[4] == '1' then 16 else 0) + code % 16 == code;
      }
  }

  /** What ReadUnit accepts is the escape of the character it reads. */
  lemma ReadUnitIsEscape(s: string)
    requires s != [] && ReadUnit(s).Some?
    ensures s[..ReadUnit(s).value.1] == EscapeChar(ReadUnit(s).value.0)
  {
    if s[0] == '\\' && !(|s| >= 2 && ShortUnescape(s[1]).Some?) {
      var code := (if s[4] == '1' then 16 else 0) + HexValue(s[5]).value;
      assert code / 16 == (if s[4] == '1' then 1 else 0) && code % 16 == HexValue(s[5]).value;
    }
  }

  /** A unit followed by a body that parses is a body that parses. */
  lemma UnitThenBody(s: string, c: char, n: nat, x: string, rest: string)
    requires s != [] && ReadUnit(s) == Some((c, n))
    requires ParseStringBody(s[n..]) == Some((x, rest))
    ensures ParseStringBody(s) == Some(([c] + x, rest))
  {
  }

  lemma {:induction false} ParseEscaped(x: string, rest: string)
    ensures ParseStringBody(Escape(x) + ['"'] + rest) == Some((x, rest))
  {
    if x == [] {
      assert Escape(x) + ['"'] + rest == ['"'] + rest;
    } else {
      var e := EscapeChar(x[0]);
      var t := Escape(x[1..]) + ['"'] + rest;
      assert Escape(x) + ['"'] + rest == e + t by {
        assert Escape(x) == e + Escape(x[1..]);
        AppendAssociates(e, Escape(x[1..]), ['"'] + rest);
      }
      ReadEscapedUnit(x[0], t);
      assert (e + t)[|e|..] == t;
      ParseEscaped(x[1..], rest);
      UnitThenBody(e + t, x[0], |e|, x[1..], rest);
      assert [x[0]] + x[1..] == x;
    }
  }

  /** One step of ParsedIsEscaped: a unit in front of an escaped rest. */
  lemma EscapedStep(s: string, x: string, rest: string, n: nat)
    requires s != [] && x != [] && ReadUnit(s) == Some((x[0], n))
    requires s[n..] == Escape(x[1..]) + ['"'] + rest
    ensures s == Escape(x) + ['"'] + rest
  {
    ReadUnitIsEscape(s);
    var e := EscapeChar(x[0]);
    assert s == e + s[n..] by {
      assert s == s[..n] + s[n..];
    }
    assert Escape(x) == e + Escape(x[1..]);
    AppendAssociates(e, Escape(x[1..]), ['"'] + rest);
  }

  lemma {:induction false} ParsedIsEscaped(s: string, x: string, rest: string)
    requires ParseStringBody(s) == Some((x, rest))
    ensures s == Escape(x) + ['"'] + rest
    decreases |s|
  {
    if s[0] == '"' {
      assert x == [] && s == ['"'] + rest;
    } else {
      var n := ReadUnit(s).value.1;
      assert x != [] && ReadUnit(s) == Some((x[0], n));
      assert ParseStringBody(s[n..]) == Some((x[1..], rest));
      ParsedIsEscaped(s[n..], x[1..], rest);
      EscapedStep(s, x, rest, n);
    }
  }

  lemma AppendAssociates(a: string, b: string, c: string)
    ensures a + (b + c) == (a + b) + c
  {
  }

  // ----- Values --------------------------------------------------------

  /** `JSON.stringify(v)`. Never the empty text, so that a written entry is
      never read back as absent; a string is quoted, a number carries a
      sign exactly when it is negative. */
  function Encode(v: Value): (text: string)
    ensures text != ""
    ensures text[0] == '"' <==> v.Str?
    ensures v.Num? ==> (text[0] == '-' <==> v.n < 0)
  {
    match v
    case Null => "null"
    case Bool(b) => if b then "true" else "false"
    case Num(n) => if n < 0 then "-" + NatText(-n) else NatText(n)
    case Str(s) => ['"'] + Escape(s) + ['"']
  }

  /** `JSON.parse(text)`: the value, or None where JSON.parse throws. Only
      a quoted text reads as a string, and a number read is negative
      exactly when the text starts with a minus sign. */
  function Decode(text: string): (r: Option<Value>)
    ensures r.Some? ==> text != [] && (r.value.Str? <==> text[0] == '"')
    ensures r.Some? && r.value.Num? ==> (r.value.n < 0 <==> text[0] == '-')
  {
    if text == "null" then Some(Null)
    else if text == "true" then Some(Bool(true))
    else if text == "false" then Some(Bool(false))
    else if text != [] && text[0] == '"' then
      match ParseStringBody(text[1..])
      case Some((x, rest)) => if rest == [] then Some(Str(x)) else None
      case None => None
    else if text != [] && text[0] == '-' then
      if CanonicalDigits(text[1..]) && 0 < DigitsValue(text[1..]) <= MaxSafeInteger then
        Some(Num(0 - DigitsValue(text[1..])))
      else None
    else if CanonicalDigits(text) && DigitsValue(text) <= MaxSafeInteger then Some(Num(DigitsValue(text)))
    else None
  }

  lemma DecodeNatText(n: nat)
    requires n <= MaxSafeInteger
    ensures Decode(NatText(n)) == Some(Num(n))
  {
    var text := NatText(n);
    NatTextIsCanonical(n);
    assert IsDigit(text[0]);
    assert text != "null" && text != "true" && text != "false";
  }

  lemma DecodeNegative(n: int)
    requires -MaxSafeInteger <= n < 0
    ensures Decode("-" + NatText(-n)) == Some(Num(n))
  {
    var text := "-" + NatText(-n);
    NatTextIsCanonical(-n);
    assert text[0] == '-' && text[1..] == NatText(-n);
    assert text != "null" && text != "true" && text != "false";
  }

  lemma DecodeQuoted(x: string)
    ensures Decode(['"'] + Escape(x) + ['"']) == Some(Str(x))
  {
    var text := ['"'] + Escape(x) + ['"'];
    ParseEscaped(x, []);
    assert text[0] == '"' && text[1..] == Escape(x) + ['"'] + [];
    assert text != "null" && text != "true" && text != "false";
  }

  /** Every value survives a write and a read of its encoding. */
  lemma DecodeEncode(v: Value)
    ensures Decode(Encode(v)) == Some(v)
  {
    match v
    case Null =>
    case Bool(b) =>
    case Num(n) =>
      if n < 0 {
        DecodeNegative(n);
      } else {
        DecodeNatText(n);
      }
    case Str(x) =>
      DecodeQuoted(x);
  }

  /** Decode accepts nothing but encodings: whatever it reads, writing it
      again gives back the same text. */
  lemma EncodeDecode(text: string, v: Value)
    requires Decode(text) == Some(v)
    ensures Encode(v) == text
  {
    if text == "null" || text == "true" || text == "false" {
    } else if text != [] && text[0] == '"' {
      ParsedIsEscaped(text[1..], v.s, []);
      assert text == [text[0]] + text[1..];
    } else if text != [] && text[0] == '-' {
      CanonicalDigitsAreNatText(text[1..]);
      assert text == "-" + text[1..];
    } else {
      CanonicalDigitsAreNatText(text);
    }
  }

  /** Distinct values are stored as distinct texts. */
  lemma EncodeInjective(a: Value, b: Value)
    requires Encode(a) == Encode(b)
    ensures a == b
  {
    DecodeEncode(a);
    DecodeEncode(b);
  }
}
