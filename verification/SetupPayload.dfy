/** The JSON payload the installer hands to the service: a byte-wise string escaper and an object
    built field by field. */
module SetupPayload {
  import opened Bytes
  import opened Wrappers
  import opened Json

  // ---------------------------------------------------------------------------------------------
  // Escaping

  function HexDigit(n: nat): (b: byte)
    requires n < 16
    ensures HexValue(b) == Ok(n)
  {
    if n < 10 then 0x30 + n else 0x61 + n - 10
  }

  function EscapedByte(b: byte, valid: bool): seq<byte> {
    if b == BACKSLASH || b == QUOTE then [BACKSLASH, b]
    else if b == 0x08 then [BACKSLASH, 0x62]
    else if b == 0x0C then [BACKSLASH, 0x66]
    else if b == 0x0A then [BACKSLASH, 0x6E]
    else if b == 0x0D then [BACKSLASH, 0x72]
    else if b == 0x09 then [BACKSLASH, 0x74]
    else if b < 0x20 || (!valid && b > 0x7E) then [BACKSLASH, 0x75, 0x30, 0x30, HexDigit(b / 16), HexDigit(b % 16)]
    else [b]
  }

  function Escaped(value: seq<byte>, valid: bool): seq<byte> {
    if value == [] then [] else EscapedByte(value[0], valid) + Escaped(value[1..], valid)
  }

  const NULL: seq<byte> := [0x6E, 0x75, 0x6C, 0x6C]

  /** The literal written for a value; a nil slice becomes null. */
  function Literal(value: Option<seq<byte>>): seq<byte> {
    match value
    case None => NULL
    case Some(v) => [QUOTE] + Escaped(v, ValidUtf8(v)) + [QUOTE]
  }

  lemma Shift(d: seq<byte>, e: seq<byte>, t: seq<byte>)
    ensures d + (e + t) == (d + e) + t
  {
  }

  /** One turn of the loop. */
  method AppendByte(dst: seq<byte>, b: byte, valid: bool) returns (r: seq<byte>)
    ensures r == dst + EscapedByte(b, valid)
  {
    r := dst;
    if b == BACKSLASH || b == QUOTE {
      r := r + [BACKSLASH, b];
    } else if b == 0x08 {
      r := r + [BACKSLASH, 0x62];
    } else if b == 0x0C {
      r := r + [BACKSLASH, 0x66];
    } else if b == 0x0A {
      r := r + [BACKSLASH, 0x6E];
    } else if b == 0x0D {
      r := r + [BACKSLASH, 0x72];
    } else if b == 0x09 {
      r := r + [BACKSLASH, 0x74];
    } else if b < 0x20 || (!valid && b > 0x7E) {
      r := r + [BACKSLASH, 0x75, 0x30, 0x30, HexDigit(b / 16), HexDigit(b % 16)];
    } else {
      r := r + [b];
    }
  }

  method AppendJsonEscaped(dst: seq<byte>, value: Option<seq<byte>>) returns (r: seq<byte>)
    ensures r == dst + Literal(value)
  {
    if value.None? {
      return dst + NULL;
    }
    var v := value.value;
    var valid := ValidUtf8(v);
    r := dst + [QUOTE];
    for i := 0 to |v|
      invariant r + Escaped(v[i..], valid) == dst + [QUOTE] + Escaped(v, valid)
    {
      assert v[i..][1..] == v[i + 1..];
      Shift(r, EscapedByte(v[i], valid), Escaped(v[i + 1..], valid));
      r := AppendByte(r, v[i], valid);
    }
    assert v[|v|..] == [] && r == dst + [QUOTE] + Escaped(v, valid);
    assert dst + [QUOTE] + Escaped(v, valid) + [QUOTE] == dst + ([QUOTE] + Escaped(v, valid) + [QUOTE]);
    r := r + [QUOTE];
  }

  // ---------------------------------------------------------------------------------------------
  // Reading back what was escaped

  /** The text a reader gets: the value itself, or each byte as a code point if it is no UTF-8. */
  function Latin1(value: seq<byte>): seq<byte> {
    if value == [] then [] else Utf8(value[0]) + Latin1(value[1..])
  }

  function AsText(value: seq<byte>): seq<byte> { if ValidUtf8(value) then value else Latin1(value) }

  lemma ReadCharsStep(u: seq<byte>, bytes: seq<byte>, tail: seq<byte>)
    requires u != [] && u[0] != QUOTE && ReadOne(u + tail) == Ok(Step(bytes, |u|))
    ensures ReadChars(u + tail) == Prefixed(bytes, ReadChars(tail))
  {
    assert (u + tail)[|u|..] == tail;
  }

  lemma {:induction false} InvalidReads(v: seq<byte>, rest: seq<byte>)
    ensures ReadChars(Escaped(v, false) + ([QUOTE] + rest)) == Ok(Read(Latin1(v), rest))
  {
    if v == [] {
      assert Escaped(v, false) + ([QUOTE] + rest) == [QUOTE] + rest;
    } else {
      var u, tail := EscapedByte(v[0], false), Escaped(v[1..], false) + ([QUOTE] + rest);
      Shift(u, Escaped(v[1..], false), [QUOTE] + rest);
      ReadCharsStep(u, Utf8(v[0]), tail);
      InvalidReads(v[1..], rest);
    }
  }

  /** The bytes of a longer character are all written as they are. */
  lemma {:induction false} WideEscaped(v: seq<byte>, n: nat)
    requires n <= |v| && forall i | 0 <= i < n :: v[i] >= 0x80
    ensures Escaped(v, true) == v[..n] + Escaped(v[n..], true)
  {
    if n == 0 {
      assert v[n..] == v;
    } else {
      WideEscaped(v[1..], n - 1);
      assert v[1..][n - 1..] == v[n..];
      assert v[..n] == [v[0]] + v[1..][..n - 1];
      Shift([v[0]], v[1..][..n - 1], Escaped(v[n..], true));
    }
  }

  /** The front character of a well-formed value, as it is written and read. */
  lemma FrontReads(v: seq<byte>, tail: seq<byte>) returns (u: seq<byte>)
    requires v != [] && CharLength(v) > 0
    ensures Escaped(v, true) == u + Escaped(v[CharLength(v)..], true)
    ensures ReadChars(u + tail) == Prefixed(v[..CharLength(v)], ReadChars(tail))
  {
    var n := CharLength(v);
    if n == 1 {
      u := EscapedByte(v[0], true);
      assert v[..n] == Utf8(v[0]);
    } else {
      u := v[..n];
      WideEscaped(v, n);
    }
    ReadCharsStep(u, v[..n], tail);
  }

  lemma {:induction false} ValidReads(v: seq<byte>, rest: seq<byte>)
    requires ValidUtf8(v)
    ensures ReadChars(Escaped(v, true) + ([QUOTE] + rest)) == Ok(Read(v, rest))
    decreases |v|
  {
    if v == [] {
      assert Escaped(v, true) + ([QUOTE] + rest) == [QUOTE] + rest;
    } else {
      var n := CharLength(v);
      var u := FrontReads(v, Escaped(v[n..], true) + ([QUOTE] + rest));
      Shift(u, Escaped(v[n..], true), [QUOTE] + rest);
      ValidReads(v[n..], rest);
      assert v == v[..n] + v[n..];
    }
  }

  /** Every literal written for a value reads back as the value's text. */
  lemma LiteralReads(v: seq<byte>, rest: seq<byte>)
    ensures ReadString(Literal(Some(v)) + rest) == Ok(Read(AsText(v), rest))
  {
    var s := Literal(Some(v)) + rest;
    assert s[1..] == Escaped(v, ValidUtf8(v)) + ([QUOTE] + rest);
    if ValidUtf8(v) { ValidReads(v, rest); } else { InvalidReads(v, rest); }
  }

  lemma {:induction false} Latin1IsValid(v: seq<byte>)
    ensures ValidUtf8(Latin1(v))
  {
    if v != [] {
      Latin1IsValid(v[1..]);
      ValidUtf8Concat(Utf8(v[0]), Latin1(v[1..]));
    }
  }

  /** The reader always gets well-formed text, and it gets the value's own bytes exactly when they
      were well-formed UTF-8. */
  lemma TextIsValueIffUtf8(v: seq<byte>)
    ensures ValidUtf8(AsText(v))
    ensures AsText(v) == v <==> ValidUtf8(v)
  {
    Latin1IsValid(v);
  }

  // ---------------------------------------------------------------------------------------------
  // The object

  function Ascii(s: string): seq<byte> { seq(|s|, i requires 0 <= i < |s| => s[i] as int % 256) }

  /** The fields that are written: those with a value. */
  function Present(fields: seq<Field>): seq<Field> {
    if fields == [] then []
    else
      var n := |fields| - 1;
      Present(fields[..n]) + if fields[n].value == [] then [] else [fields[n]]
  }

  function Member(f: Field): seq<byte> { [QUOTE] + f.name + [QUOTE, COLON] + Literal(Some(f.value)) }

  function Members(fields: seq<Field>): seq<byte> {
    if fields == [] then []
    else if |fields| == 1 then Member(fields[0])
    else Member(fields[0]) + ([COMMA] + Members(fields[1..]))
  }

  function Payload(fields: seq<Field>): seq<byte> { [OPEN] + (Members(Present(fields)) + [CLOSE]) }

  function Comma(first: bool): seq<byte> { if first then [] else [COMMA] }

  lemma {:induction false} MembersSnoc(fields: seq<Field>, f: Field)
    ensures Members(fields + [f]) == Members(fields) + (Comma(fields == []) + Member(f))
  {
    if |fields| == 0 {
      assert fields + [f] == [f];
    } else {
      MembersSnoc(fields[1..], f);
      assert (fields + [f])[1..] == fields[1..] + [f];
      if |fields| == 1 {
        assert Members(fields) == Member(fields[0]) && fields[1..] == [];
      } else {
        Shift([COMMA], Members(fields[1..]), [COMMA] + Member(f));
        Shift(Member(fields[0]), [COMMA] + Members(fields[1..]), [COMMA] + Member(f));
      }
    }
  }

  predicate NothingBefore(fields: seq<Field>, k: nat)
    requires k <= |fields|
  {
    k == 0 || (fields[k - 1].value == [] && NothingBefore(fields, k - 1))
  }

  /** The object written for the first `k` fields, still open. */
  function Begun(fields: seq<Field>, k: nat): seq<byte>
    requires k <= |fields|
  {
    if k == 0 then [OPEN] else Begun(fields, k - 1) + Written(fields, k - 1)
  }

  function Written(fields: seq<Field>, k: nat): seq<byte>
    requires k < |fields|
  {
    if fields[k].value == [] then [] else Comma(NothingBefore(fields, k)) + Member(fields[k])
  }

  lemma NothingAdded<T>(s: seq<T>)
    ensures s + [] == s
  {
  }

  lemma BegunNext(fields: seq<Field>, k: nat, before: seq<Field>)
    requires k < |fields| && Begun(fields, k) == [OPEN] + Members(before)
    requires NothingBefore(fields, k) <==> before == []
    ensures fields[k].value == [] ==> Begun(fields, k + 1) == [OPEN] + Members(before)
    ensures fields[k].value != [] ==> Begun(fields, k + 1) == [OPEN] + Members(before + [fields[k]])
  {
    if fields[k].value == [] {
      NothingAdded(Begun(fields, k));
    } else {
      MembersSnoc(before, fields[k]);
      Shift([OPEN], Members(before), Comma(before == []) + Member(fields[k]));
      assert ([OPEN] + Members(before)) + (Comma(before == []) + Member(fields[k])) == [OPEN] + Members(before + [fields[k]]);
    }
  }

  /** `before` is what is present among the first `k` fields. */
  ghost predicate OpenObject(fields: seq<Field>, k: nat, before: seq<Field>) {
    && k <= |fields| && before == Present(fields[..k])
    && Begun(fields, k) == [OPEN] + Members(before)
    && (NothingBefore(fields, k) <==> before == [])
  }

  lemma BegunMore(fields: seq<Field>, k: nat, before: seq<Field>) returns (after: seq<Field>)
    requires OpenObject(fields, k, before) && k < |fields|
    ensures OpenObject(fields, k + 1, after)
  {
    assert fields[..k + 1][..k] == fields[..k];
    assert Present(fields[..k + 1]) == Present(fields[..k]) + if fields[k].value == [] then [] else [fields[k]];
    BegunNext(fields, k, before);
    NothingAdded(before);
    after := Present(fields[..k + 1]);
  }

  lemma {:induction false} BegunIsOpenObject(fields: seq<Field>, k: nat) returns (before: seq<Field>)
    requires k <= |fields|
    ensures OpenObject(fields, k, before)
  {
    if k == 0 {
      before := [];
    } else {
      before := BegunIsOpenObject(fields, k - 1);
      before := BegunMore(fields, k - 1, before);
    }
  }

  lemma BegunAll(fields: seq<Field>)
    ensures Begun(fields, |fields|) + [CLOSE] == Payload(fields)
  {
    var present := BegunIsOpenObject(fields, |fields|);
    assert fields[..|fields|] == fields;
    Shift([OPEN], Members(Present(fields)), [CLOSE]);
  }

  lemma MemberInSteps(buf: seq<byte>, c: seq<byte>, f: Field)
    ensures buf + c + ([QUOTE] + f.name + [QUOTE, COLON]) + Literal(Some(f.value)) == buf + (c + Member(f))
  {
  }

  /** Appends field `k`, with a comma unless it is the first written, or nothing if it has no value. */
  method AppendField(buf: seq<byte>, first: bool, ghost fields: seq<Field>, ghost k: nat, f: Field) returns (buf': seq<byte>, first': bool)
    requires k < |fields| && f == fields[k] && buf == Begun(fields, k) && first == NothingBefore(fields, k)
    ensures buf' == Begun(fields, k + 1) && first' == NothingBefore(fields, k + 1)
  {
    buf', first' := buf, first;
    if |f.value| > 0 {
      if !first' {
        buf' := buf' + [COMMA];
      }
      assert buf' == buf + Comma(first);
      first' := false;
      buf' := buf' + ([QUOTE] + f.name + [QUOTE, COLON]);
      buf' := AppendJsonEscaped(buf', Some(f.value));
      MemberInSteps(buf, Comma(first), f);
    }
  }

  /** What the installer has asked for; an absent answer is empty. */
  datatype Setup = Setup(
    token: seq<byte>,
    adminId: seq<byte>,
    totpSecret: seq<byte>,
    matrixHomeserver: seq<byte>,
    matrixUser: seq<byte>,
    matrixRoom: seq<byte>,
    matrixPassword: seq<byte>,
    matrixStorePassphrase: seq<byte>,
    matrixRecoveryKey: seq<byte>,
    simplexPort: seq<byte>,
    simplexAdminId: seq<byte>)

  function Fields(s: Setup): seq<Field> {
    [ Field(Ascii("token"), s.token),
      Field(Ascii("admin_id"), s.adminId),
      Field(Ascii("totp_secret"), s.totpSecret),
      Field(Ascii("matrix_homeserver"), s.matrixHomeserver),
      Field(Ascii("matrix_username"), s.matrixUser),
      Field(Ascii("matrix_password"), s.matrixPassword),
      Field(Ascii("matrix_room_id"), s.matrixRoom),
      Field(Ascii("matrix_store_passphrase"), s.matrixStorePassphrase),
      Field(Ascii("matrix_recovery_key"), s.matrixRecoveryKey),
      Field(Ascii("simplex_port"), s.simplexPort),
      Field(Ascii("simplex_admin_id"), s.simplexAdminId) ]
  }

  /** The payload: the same block for every field in turn, each left out when it is empty. */
  method BuildSetupPayload(s: Setup) returns (buf: seq<byte>)
    ensures buf == Payload(Fields(s))
  {
    buf := [OPEN];
    var first := true;
    var fields := Fields(s);
    for k := 0 to |fields|
      invariant buf == Begun(fields, k) && first == NothingBefore(fields, k)
    {
      buf, first := AppendField(buf, first, fields, k, fields[k]);
    }
    buf := buf + [CLOSE];
    BegunAll(fields);
  }

  // ---------------------------------------------------------------------------------------------
  // Reading the object back

  predicate IsNameByte(b: byte) { 0x61 <= b <= 0x7A || b == 0x5F }

  /** Names are lower-case words, written without escapes. */
  predicate IsName(name: seq<byte>) { forall i | 0 <= i < |name| :: IsNameByte(name[i]) }

  lemma {:induction false} NameIsPlain(name: seq<byte>)
    requires IsName(name)
    ensures ValidUtf8(name) && Escaped(name, true) == name
  {
    if name != [] {
      NameIsPlain(name[1..]);
      assert CharLength(name) == 1;
    }
  }

  /** The fields as a reader gets them. */
  function AsRead(fields: seq<Field>): seq<Field> {
    seq(|fields|, i requires 0 <= i < |fields| => AsReadOne(fields[i]))
  }

  lemma MemberParts(name: seq<byte>, value: seq<byte>, rest: seq<byte>)
    ensures ([QUOTE] + name + [QUOTE, COLON] + value) + rest == ([QUOTE] + name + [QUOTE]) + ([COLON] + (value + rest))
  {
  }

  lemma MemberReads(f: Field, rest: seq<byte>)
    requires IsName(f.name)
    ensures ReadMember(Member(f) + rest) == Ok(Read(AsReadOne(f), rest))
  {
    var value := Literal(Some(f.value)) + rest;
    NameIsPlain(f.name);
    LiteralReads(f.name, [COLON] + value);
    LiteralReads(f.value, rest);
    MemberParts(f.name, Literal(Some(f.value)), rest);
  }

  lemma MembersStep(s: seq<byte>, f: Field, others: seq<byte>)
    requires ReadMember(s) == Ok(Read(f, [COMMA] + others)) && others != [] && !IsSpace(others[0])
    ensures ReadMembers(s) == match ReadMembers(others)
                              case Err => Err
                              case Ok(r) => Ok(Read([f] + r.value, r.rest))
  {
    var t := [COMMA] + others;
    assert SkipSpace(t) == t && t[1..] == others && SkipSpace(others) == others;
  }

  function AsReadOne(f: Field): Field { Field(f.name, AsText(f.value)) }

  lemma {:induction false} MembersRead(fields: seq<Field>, rest: seq<byte>)
    requires fields != [] && forall i | 0 <= i < |fields| :: IsName(fields[i].name)
    ensures ReadMembers(Members(fields) + ([CLOSE] + rest)) == Ok(Read(AsRead(fields), rest))
  {
    var f, end := fields[0], [CLOSE] + rest;
    assert AsRead(fields) == [AsReadOne(fields[0])] + AsRead(fields[1..]);
    if |fields| == 1 {
      MemberReads(f, end);
      assert AsRead(fields) == [AsReadOne(f)];
    } else {
      var others := Members(fields[1..]) + end;
      Shift(Member(f), [COMMA] + Members(fields[1..]), end);
      Shift([COMMA], Members(fields[1..]), end);
      MemberReads(f, [COMMA] + others);
      MembersStep(Member(f) + ([COMMA] + others), AsReadOne(f), others);
      MembersRead(fields[1..], rest);
    }
  }

  lemma {:induction false} PresentNamed(fields: seq<Field>)
    requires forall i | 0 <= i < |fields| :: IsName(fields[i].name)
    ensures forall i | 0 <= i < |Present(fields)| :: IsName(Present(fields)[i].name)
  {
    if fields != [] { PresentNamed(fields[..|fields| - 1]); }
  }

  lemma NotSpace(s: seq<byte>)
    requires s != [] && !IsSpace(s[0])
    ensures SkipSpace(s) == s
  {
  }

  lemma BodyReads(u: seq<byte>, fields: seq<Field>)
    requires u != [] && u[0] == QUOTE && ReadMembers(u) == Ok(Read(fields, []))
    ensures ParseBody(u) == Ok(fields)
  {
  }

  lemma ObjectReads(u: seq<byte>, fields: seq<Field>)
    requires u != [] && u[0] == QUOTE && ReadMembers(u) == Ok(Read(fields, []))
    ensures ParseObject([OPEN] + u) == Ok(fields)
  {
    var p := [OPEN] + u;
    NotSpace(p);
    NotSpace(u);
    BodyReads(u, fields);
    assert p[1..] == u;
  }

  lemma NothingReads(u: seq<byte>)
    ensures u == [CLOSE] ==> ParseObject([OPEN] + u) == Ok([])
  {
    if u == [CLOSE] {
      assert [OPEN] + u == [OPEN, CLOSE];
    }
  }

  lemma PresentReads(fields: seq<Field>, u: seq<byte>)
    requires forall i | 0 <= i < |fields| :: IsName(fields[i].name)
    requires u == Members(fields) + [CLOSE]
    ensures ParseObject([OPEN] + u) == Ok(AsRead(fields))
  {
    if fields == [] {
      NothingReads(u);
      assert u == [CLOSE] && AsRead(fields) == [];
    } else {
      MembersRead(fields, []);
      NothingAdded([CLOSE]);
      assert u != [] && u[0] == QUOTE && ReadMembers(u) == Ok(Read(AsRead(fields), []));
      ObjectReads(u, AsRead(fields));
    }
  }

  /** Whatever the fields, the payload is one JSON object with the present fields in order. */
  lemma PayloadReads(fields: seq<Field>)
    requires forall i | 0 <= i < |fields| :: IsName(fields[i].name)
    ensures ParseObject(Payload(fields)) == Ok(AsRead(Present(fields)))
  {
    PresentNamed(fields);
    PresentReads(Present(fields), Members(Present(fields)) + [CLOSE]);
  }

  predicate IsWord(s: string) { forall c | c in s :: 'a' <= c <= 'z' || c == '_' }

  lemma WordIsName(s: string)
    requires IsWord(s)
    ensures IsName(Ascii(s))
  {
    forall i | 0 <= i < |s| ensures IsNameByte(Ascii(s)[i]) { assert s[i] in s; }
  }

  lemma MatrixStoreNamed()
    ensures IsName(Ascii("matrix_room_id")) && IsName(Ascii("matrix_store_passphrase")) && IsName(Ascii("matrix_recovery_key"))
  {
    WordIsName("matrix_room_id");
    WordIsName("matrix_store_passphrase");
    WordIsName("matrix_recovery_key");
  }

  lemma SimplexNamed()
    ensures IsName(Ascii("simplex_port")) && IsName(Ascii("simplex_admin_id"))
  {
    WordIsName("simplex_port");
    WordIsName("simplex_admin_id");
  }

  lemma FieldsNamed(s: Setup)
    ensures forall i | 0 <= i < |Fields(s)| :: IsName(Fields(s)[i].name)
  {
    WordIsName("token");
    WordIsName("admin_id");
    WordIsName("totp_secret");
    assert IsName(Ascii("token")) && IsName(Ascii("admin_id")) && IsName(Ascii("totp_secret"));
    WordIsName("matrix_homeserver");
    WordIsName("matrix_username");
    WordIsName("matrix_password");
    assert IsName(Ascii("matrix_homeserver")) && IsName(Ascii("matrix_username")) && IsName(Ascii("matrix_password"));
    MatrixStoreNamed();
    SimplexNamed();
  }

  /** Every setup payload is one well-formed JSON object. Reading it gives exactly the fields that
      were set, with the same bytes, if and only if all of them are UTF-8. */
  lemma SetupRoundTrip(s: Setup)
    ensures ParseObject(Payload(Fields(s))) == Ok(AsRead(Present(Fields(s))))
    ensures ParseObject(Payload(Fields(s))) == Ok(Present(Fields(s))) <==>
            AllValid(Fields(s))
  {
    FieldsNamed(s);
    PayloadReads(Fields(s));
    SameFieldsIffUtf8(Present(Fields(s)));
    PresentValid(Fields(s));
  }

  lemma SameFieldsIffUtf8(fields: seq<Field>)
    ensures AsRead(fields) == fields <==> AllValid(fields)
  {
    forall i | 0 <= i < |fields| ensures AsRead(fields)[i] == fields[i] <==> ValidUtf8(fields[i].value) {
      TextIsValueIffUtf8(fields[i].value);
    }
  }

  ghost predicate AllValid(fields: seq<Field>) { forall i | 0 <= i < |fields| :: ValidUtf8(fields[i].value) }

  lemma {:induction false} PresentValid(fields: seq<Field>)
    ensures AllValid(fields) <==> AllValid(Present(fields))
  {
    if fields != [] {
      var n := |fields| - 1;
      PresentValid(fields[..n]);
      AllValidSnoc(fields[..n], fields[n]);
      assert fields == fields[..n] + [fields[n]];
      AllValidSnoc(Present(fields[..n]), fields[n]);
      NothingAdded(Present(fields[..n]));
    }
  }

  lemma AllValidSnoc(fields: seq<Field>, f: Field)
    ensures AllValid(fields + [f]) <==> AllValid(fields) && ValidUtf8(f.value)
  {
    if AllValid(fields + [f]) {
      forall i | 0 <= i < |fields| ensures ValidUtf8(fields[i].value) { assert (fields + [f])[i] == fields[i]; }
      assert (fields + [f])[|fields|] == f;
    }
  }

  // ---------------------------------------------------------------------------------------------
  // The value under each name

  lemma {:induction false} PresentMembers(fields: seq<Field>, f: Field)
    ensures f in Present(fields) <==> f in fields && f.value != []
  {
    if fields != [] {
      var n := |fields| - 1;
      PresentMembers(fields[..n], f);
      assert fields == fields[..n] + [fields[n]];
    }
  }

  ghost predicate DistinctFields(fields: seq<Field>) {
    forall i, j | 0 <= i < j < |fields| :: fields[i].name != fields[j].name
  }

  /** What is read under a name: nothing at all if the value is empty, and otherwise its text. */
  ghost predicate ReadUnder(read: seq<Field>, name: seq<byte>, value: seq<byte>) {
    if value == [] then forall f | f in read :: f.name != name
    else Field(name, AsText(value)) in read && forall f | f in read && f.name == name :: f.value == AsText(value)
  }

  lemma ReadUnderOne(fields: seq<Field>, i: nat)
    requires DistinctFields(fields) && i < |fields|
    ensures ReadUnder(AsRead(Present(fields)), fields[i].name, fields[i].value)
  {
    var present, f := Present(fields), fields[i];
    forall g | g in AsRead(present) && g.name == f.name ensures f.value != [] && g.value == AsText(f.value) {
      var k :| 0 <= k < |present| && AsRead(present)[k] == g;
      PresentMembers(fields, present[k]);
      var j :| 0 <= j < |fields| && fields[j] == present[k];
      assert i == j;
    }
    if f.value != [] {
      PresentMembers(fields, f);
      var k :| 0 <= k < |present| && present[k] == f;
      assert AsRead(present)[k] == Field(f.name, AsText(f.value));
    }
  }

  lemma NamesDiffer(s: Setup)
    ensures DistinctFields(Fields(s))
  {
    assert Ascii("matrix_username")[7] == 0x75 && Ascii("matrix_password")[7] == 0x70;
    assert |Ascii("token")| == 5 && |Ascii("admin_id")| == 8 && |Ascii("totp_secret")| == 11;
    assert |Ascii("matrix_homeserver")| == 17 && |Ascii("matrix_username")| == 15 && |Ascii("matrix_password")| == 15;
    assert |Ascii("matrix_room_id")| == 14 && |Ascii("matrix_store_passphrase")| == 23 && |Ascii("matrix_recovery_key")| == 19;
    assert |Ascii("simplex_port")| == 12 && |Ascii("simplex_admin_id")| == 16;
  }

  /** Each answer is read back under its own name. */
  lemma ValueUnderName(s: Setup)
    ensures ParseObject(Payload(Fields(s))).Ok?
    ensures var read := ParseObject(Payload(Fields(s))).value;
            && ReadUnder(read, Ascii("token"), s.token)
            && ReadUnder(read, Ascii("admin_id"), s.adminId)
            && ReadUnder(read, Ascii("totp_secret"), s.totpSecret)
            && ReadUnder(read, Ascii("matrix_homeserver"), s.matrixHomeserver)
            && ReadUnder(read, Ascii("matrix_username"), s.matrixUser)
            && ReadUnder(read, Ascii("matrix_password"), s.matrixPassword)
            && ReadUnder(read, Ascii("matrix_room_id"), s.matrixRoom)
            && ReadUnder(read, Ascii("matrix_store_passphrase"), s.matrixStorePassphrase)
            && ReadUnder(read, Ascii("matrix_recovery_key"), s.matrixRecoveryKey)
            && ReadUnder(read, Ascii("simplex_port"), s.simplexPort)
            && ReadUnder(read, Ascii("simplex_admin_id"), s.simplexAdminId)
  {
    SetupRoundTrip(s);
    NamesDiffer(s);
    var fields := Fields(s);
    forall i: nat | i < |fields| ensures ReadUnder(AsRead(Present(fields)), fields[i].name, fields[i].value) {
      ReadUnderOne(fields, i);
    }
    assert ReadUnder(AsRead(Present(fields)), fields[0].name, fields[0].value);
    assert ReadUnder(AsRead(Present(fields)), fields[1].name, fields[1].value);
    assert ReadUnder(AsRead(Present(fields)), fields[2].name, fields[2].value);
    assert ReadUnder(AsRead(Present(fields)), fields[3].name, fields[3].value);
    assert ReadUnder(AsRead(Present(fields)), fields[4].name, fields[4].value);
    assert ReadUnder(AsRead(Present(fields)), fields[5].name, fields[5].value);
    assert ReadUnder(AsRead(Present(fields)), fields[6].name, fields[6].value);
    assert ReadUnder(AsRead(Present(fields)), fields[7].name, fields[7].value);
    assert ReadUnder(AsRead(Present(fields)), fields[8].name, fields[8].value);
    assert ReadUnder(AsRead(Present(fields)), fields[9].name, fields[9].value);
    assert ReadUnder(AsRead(Present(fields)), fields[10].name, fields[10].value);
  }

  /** The spelling of single bytes: the short escapes of section 7 of RFC 8259, the long form for the
      other control characters and for bytes that are no UTF-8, and everything else as it is. */
  lemma Spellings(b: byte)
    ensures Literal(Some([0x22])) == [0x22, 0x5C, 0x22, 0x22] && Literal(Some([0x5C])) == [0x22, 0x5C, 0x5C, 0x22]
    ensures Literal(Some([0x0A])) == [0x22, 0x5C, 0x6E, 0x22] && Literal(Some([0x0D])) == [0x22, 0x5C, 0x72, 0x22]
    ensures Literal(Some([0x09])) == [0x22, 0x5C, 0x74, 0x22]
    ensures Literal(Some([0x08])) == [0x22, 0x5C, 0x62, 0x22] && Literal(Some([0x0C])) == [0x22, 0x5C, 0x66, 0x22]
    ensures Literal(Some([0x1F])) == [0x22, 0x5C, 0x75, 0x30, 0x30, 0x31, 0x66, 0x22]
    ensures Literal(Some([0xFF])) == [0x22, 0x5C, 0x75, 0x30, 0x30, 0x66, 0x66, 0x22]
    ensures 0x20 <= b <= 0x7F && b != 0x22 && b != 0x5C ==> Literal(Some([b])) == [0x22, b, 0x22]
  {
    forall c: byte ensures Literal(Some([c])) == [0x22] + EscapedByte(c, c < 0x80) + [0x22] { LiteralOfByte(c); }
  }

  lemma LiteralOfByte(c: byte)
    ensures Literal(Some([c])) == [0x22] + EscapedByte(c, c < 0x80) + [0x22]
  {
    assert [c][1..] == [];
    assert ValidUtf8([]);
    assert ValidUtf8([c]) <==> c < 0x80;
    assert Escaped([c], c < 0x80) == EscapedByte(c, c < 0x80) + [];
  }
}
