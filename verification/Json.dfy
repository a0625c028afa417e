/** A reader for JSON objects whose values are strings, after sections 2, 4 and 7 of RFC 8259. It is
    written from the grammar alone and knows nothing of the writer it is used to judge. */
module Json {
  import opened Bytes
  import opened Wrappers

  const QUOTE: byte := 0x22
  const BACKSLASH: byte := 0x5C
  const COMMA: byte := 0x2C
  const COLON: byte := 0x3A
  const OPEN: byte := 0x7B
  const CLOSE: byte := 0x7D

  datatype Field = Field(name: seq<byte>, value: seq<byte>)

  /** One character of a string literal: the bytes it stands for and the length of its spelling. */
  datatype Step = Step(bytes: seq<byte>, length: nat)

  datatype Read<T> = Read(value: T, rest: seq<byte>)

  function HexValue(b: byte): Result<nat> {
    if 0x30 <= b <= 0x39 then Ok(b - 0x30)
    else if 0x61 <= b <= 0x66 then Ok(b - 0x61 + 10)
    else if 0x41 <= b <= 0x46 then Ok(b - 0x41 + 10)
    else Err
  }

  /** The number spelled by four hexadecimal digits from position `at`. */
  function HexAt(s: seq<byte>, at: nat): Result<nat> {
    if |s| < at + 4 then Err
    else if HexValue(s[at]).Ok? && HexValue(s[at + 1]).Ok? && HexValue(s[at + 2]).Ok? && HexValue(s[at + 3]).Ok? then
      Ok(HexValue(s[at]).value * 0x1000 + HexValue(s[at + 1]).value * 0x100 + HexValue(s[at + 2]).value * 0x10 + HexValue(s[at + 3]).value)
    else Err
  }

  /** The UTF-8 encoding of a code point (section 3 of RFC 3629). */
  function Utf8(cp: nat): seq<byte> {
    if cp < 0x80 then [cp]
    else if cp < 0x800 then [0xC0 + cp / 0x40, 0x80 + cp % 0x40]
    else if cp < 0x10000 then [0xE0 + cp / 0x1000, 0x80 + cp / 0x40 % 0x40, 0x80 + cp % 0x40]
    else if cp < 0x110000 then [0xF0 + cp / 0x40000, 0x80 + cp / 0x1000 % 0x40, 0x80 + cp / 0x40 % 0x40, 0x80 + cp % 0x40]
    else []
  }

  /** A `\u` escape, or two of them for a code point outside the basic plane; a lone surrogate stands
      for no text and is refused. */
  function ReadUnicode(s: seq<byte>): Result<Step> {
    match HexAt(s, 2)
    case Err => Err
    case Ok(high) =>
      if 0xDC00 <= high < 0xE000 then Err
      else if 0xD800 <= high < 0xDC00 then
        if |s| >= 12 && s[6] == BACKSLASH && s[7] == 0x75 && HexAt(s, 8).Ok? && 0xDC00 <= HexAt(s, 8).value < 0xE000
        then Ok(Step(Utf8(0x10000 + (high - 0xD800) * 0x400 + HexAt(s, 8).value - 0xDC00), 12))
        else Err
      else Ok(Step(Utf8(high), 6))
  }

  function ReadEscape(s: seq<byte>): Result<Step>
    requires |s| >= 1
  {
    if |s| < 2 then Err
    else if s[1] == QUOTE || s[1] == BACKSLASH || s[1] == 0x2F then Ok(Step([s[1]], 2))
    else if s[1] == 0x62 then Ok(Step([0x08], 2))
    else if s[1] == 0x66 then Ok(Step([0x0C], 2))
    else if s[1] == 0x6E then Ok(Step([0x0A], 2))
    else if s[1] == 0x72 then Ok(Step([0x0D], 2))
    else if s[1] == 0x74 then Ok(Step([0x09], 2))
    else if s[1] == 0x75 then ReadUnicode(s)
    else Err
  }

  /** The character at the front of a literal. */
  function ReadOne(s: seq<byte>): (r: Result<Step>)
    requires s != []
    ensures r.Ok? ==> 0 < r.value.length <= |s|
  {
    if s[0] == BACKSLASH then ReadEscape(s)
    else if s[0] < 0x20 || s[0] == QUOTE || CharLength(s) == 0 then Err
    else Ok(Step(s[..CharLength(s)], CharLength(s)))
  }

  /** The rest of a literal after its opening quote. */
  function ReadChars(s: seq<byte>): (r: Result<Read<seq<byte>>>)
    ensures r.Ok? ==> |r.value.rest| < |s|
  {
    if s == [] then Err
    else if s[0] == QUOTE then Ok(Read([], s[1..]))
    else if ReadOne(s).Err? then Err
    else Prefixed(ReadOne(s).value.bytes, ReadChars(s[ReadOne(s).value.length..]))
  }

  function Prefixed(bytes: seq<byte>, r: Result<Read<seq<byte>>>): Result<Read<seq<byte>>> {
    match r
    case Err => Err
    case Ok(read) => Ok(Read(bytes + read.value, read.rest))
  }

  function ReadString(s: seq<byte>): (r: Result<Read<seq<byte>>>)
    ensures r.Ok? ==> |r.value.rest| < |s|
  {
    if s == [] || s[0] != QUOTE then Err else ReadChars(s[1..])
  }

  predicate IsSpace(b: byte) { b == 0x20 || b == 0x09 || b == 0x0A || b == 0x0D }

  function SkipSpace(s: seq<byte>): (r: seq<byte>)
    ensures |r| <= |s|
  {
    if s != [] && IsSpace(s[0]) then SkipSpace(s[1..]) else s
  }

  function ReadMember(s: seq<byte>): (r: Result<Read<Field>>)
    ensures r.Ok? ==> |r.value.rest| < |s|
  {
    match ReadString(s)
    case Err => Err
    case Ok(name) =>
      var t := SkipSpace(name.rest);
      if t == [] || t[0] != COLON then Err
      else
        match ReadString(SkipSpace(t[1..]))
        case Err => Err
        case Ok(value) => Ok(Read(Field(name.value, value.value), value.rest))
  }

  /** One or more members up to the closing brace. */
  function ReadMembers(s: seq<byte>): (r: Result<Read<seq<Field>>>)
    ensures r.Ok? ==> |r.value.rest| < |s|
    decreases |s|
  {
    match ReadMember(s)
    case Err => Err
    case Ok(first) =>
      var t := SkipSpace(first.rest);
      if t == [] then Err
      else if t[0] == CLOSE then Ok(Read([first.value], t[1..]))
      else if t[0] != COMMA then Err
      else
        match ReadMembers(SkipSpace(t[1..]))
        case Err => Err
        case Ok(others) => Ok(Read([first.value] + others.value, others.rest))
  }

  /** A text that is one object of strings and nothing else. */
  function ParseObject(s: seq<byte>): Result<seq<Field>> {
    var t := SkipSpace(s);
    if t == [] || t[0] != OPEN then Err else ParseBody(SkipSpace(t[1..]))
  }

  /** What follows the opening brace, to the end of the text. */
  function ParseBody(u: seq<byte>): Result<seq<Field>> {
    if u != [] && u[0] == CLOSE then
      if SkipSpace(u[1..]) == [] then Ok([]) else Err
    else
      match ReadMembers(u)
      case Err => Err
      case Ok(all) => if SkipSpace(all.rest) == [] then Ok(all.value) else Err
  }

  // ---------------------------------------------------------------------------------------------
  // Well-formed characters are exactly the encodings of scalar values

  /** A code point that is not a surrogate. */
  predicate Scalar(cp: nat) { cp < 0xD800 || 0xE000 <= cp < 0x110000 }

  lemma CharacterWritten(cp: nat, t: seq<byte>)
    requires Scalar(cp)
    ensures CharLength(Utf8(cp) + t) == |Utf8(cp)|
  {
    if 0x800 <= cp < 0x10000 {
      LeadThree(cp);
    } else if cp >= 0x10000 {
      LeadFour(cp);
    }
  }

  lemma LeadThree(cp: nat)
    requires Scalar(cp) && 0x800 <= cp < 0x10000
    ensures var a, b := cp / 0x1000, cp / 0x40 % 0x40;
            a < 16 && b < 0x40 && (a == 0 ==> b >= 0x20) && (a == 13 ==> b < 0x20)
  {
    var q := cp / 0x40;
    assert q / 0x40 == cp / 0x1000;
    assert q == 0x40 * (q / 0x40) + q % 0x40;
  }

  lemma LeadFour(cp: nat)
    requires 0x10000 <= cp < 0x110000
    ensures var a, b := cp / 0x40000, cp / 0x1000 % 0x40;
            a <= 4 && b < 0x40 && (a == 0 ==> b >= 0x10) && (a == 4 ==> b < 0x10)
  {
    var q := cp / 0x1000;
    assert q / 0x40 == cp / 0x40000;
    assert q == 0x40 * (q / 0x40) + q % 0x40;
  }

  lemma TwoDigits(a: nat, b: nat)
    requires b < 0x40
    ensures (a * 0x40 + b) / 0x40 == a && (a * 0x40 + b) % 0x40 == b
  {
  }

  /** The digits of a code point built from its bytes. */
  lemma DigitsBack(a: nat, b: nat, c: nat)
    requires b < 0x40 && c < 0x40
    ensures var cp := (a * 0x40 + b) * 0x40 + c;
            cp / 0x1000 == a && cp / 0x40 % 0x40 == b && cp % 0x40 == c
  {
    TwoDigits(a, b);
    TwoDigits(a * 0x40 + b, c);
    var cp := (a * 0x40 + b) * 0x40 + c;
    assert cp / 0x1000 == cp / 0x40 / 0x40;
  }

  lemma BuiltThree(a: nat, b: nat, c: nat)
    requires a < 16 && b < 0x40 && c < 0x40 && (a == 0 ==> b >= 0x20) && (a == 13 ==> b < 0x20)
    ensures var cp := (a * 0x40 + b) * 0x40 + c;
            Scalar(cp) && Utf8(cp) == [0xE0 + a, 0x80 + b, 0x80 + c]
  {
    DigitsBack(a, b, c);
  }

  lemma BuiltFour(a: nat, b: nat, c: nat, d: nat)
    requires a <= 4 && b < 0x40 && c < 0x40 && d < 0x40 && (a == 0 ==> b >= 0x10) && (a == 4 ==> b < 0x10)
    ensures var cp := ((a * 0x40 + b) * 0x40 + c) * 0x40 + d;
            Scalar(cp) && Utf8(cp) == [0xF0 + a, 0x80 + b, 0x80 + c, 0x80 + d]
  {
    var cp := ((a * 0x40 + b) * 0x40 + c) * 0x40 + d;
    DigitsBack(a * 0x40 + b, c, d);
    TwoDigits(a, b);
    assert cp / 0x40000 == cp / 0x1000 / 0x40;
  }

  lemma CharacterRead(s: seq<byte>) returns (cp: nat)
    requires s != [] && CharLength(s) > 0
    ensures Scalar(cp) && s[..CharLength(s)] == Utf8(cp)
  {
    var n := CharLength(s);
    if n == 1 {
      cp := s[0];
    } else if n == 2 {
      var a: nat, b: nat := s[0] - 0xC0, s[1] - 0x80;
      cp := a * 0x40 + b;
      TwoDigits(a, b);
    } else if n == 3 {
      var a: nat, b: nat, c: nat := s[0] - 0xE0, s[1] - 0x80, s[2] - 0x80;
      cp := (a * 0x40 + b) * 0x40 + c;
      BuiltThree(a, b, c);
    } else {
      var a: nat, b: nat, c: nat, d: nat := s[0] - 0xF0, s[1] - 0x80, s[2] - 0x80, s[3] - 0x80;
      cp := ((a * 0x40 + b) * 0x40 + c) * 0x40 + d;
      BuiltFour(a, b, c, d);
    }
  }

  /** A character is well-formed exactly if it is the UTF-8 encoding of a scalar value. */
  lemma CharacterExactly(s: seq<byte>, n: nat)
    requires s != [] && n > 0
    ensures CharLength(s) == n <==> n <= |s| && exists cp :: Scalar(cp) && Utf8(cp) == s[..n]
  {
    if CharLength(s) == n {
      var cp := CharacterRead(s);
    }
    if n <= |s| {
      if cp :| Scalar(cp) && Utf8(cp) == s[..n] {
        CharacterWritten(cp, s[n..]);
        assert Utf8(cp) + s[n..] == s;
      }
    }
  }
}
