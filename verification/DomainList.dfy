/** The `DomainList` pool files of `pb.rs`: two repeated string fields, written and read by hand. */
module DomainList {
  import opened Bytes
  import opened Wrappers
  import opened Wire

  const TAG_PQ: byte := 0x0A
  const TAG_CLASSIC: byte := 0x12

  datatype Pools = Pools(pq: seq<Text>, classic: seq<Text>)

  predicate ValidTexts(names: seq<Text>) { forall i | 0 <= i < |names| :: ValidText(names[i]) }

  predicate ValidPools(p: Pools) { ValidTexts(p.pq) && ValidTexts(p.classic) }

  /** What one field of the file contributes. */
  datatype Field = Pq(name: Text) | Classic(name: Text) | Unknown

  // ---------------------------------------------------------------------------------------------
  // Writing

  function StringField(tag: byte, s: Text): seq<byte> {
    if s == [] then [] else [tag] + Delimited(s)
  }

  function StringFields(tag: byte, names: seq<Text>): seq<byte> {
    if names == [] then []
    else StringFields(tag, names[..|names| - 1]) + StringField(tag, names[|names| - 1])
  }

  function Encoded(p: Pools): seq<byte> {
    StringFields(TAG_PQ, p.pq) + StringFields(TAG_CLASSIC, p.classic)
  }

  method PutStringField(out: seq<byte>, tag: byte, s: Text) returns (r: seq<byte>)
    ensures r == out + StringField(tag, s)
  {
    r := out;
    if s == [] {
      return;
    }
    r := r + [tag];
    r := PutDelimited(r, s);
  }

  method PutStrings(out: seq<byte>, tag: byte, names: seq<Text>) returns (r: seq<byte>)
    ensures r == out + StringFields(tag, names)
  {
    r := out;
    for i := 0 to |names|
      invariant r == out + StringFields(tag, names[..i])
    {
      assert names[..i + 1][..i] == names[..i];
      Regroup(out, StringFields(tag, names[..i]), StringField(tag, names[i]));
      r := PutStringField(r, tag, names[i]);
    }
    assert names[..|names|] == names;
  }

  method Encode(pq: seq<Text>, classic: seq<Text>) returns (r: seq<byte>)
    ensures r == Encoded(Pools(pq, classic))
  {
    var out: seq<byte> := [];
    r := PutStrings(out, TAG_PQ, pq);
    assert r == StringFields(TAG_PQ, pq);
    r := PutStrings(r, TAG_CLASSIC, classic);
  }

  // ---------------------------------------------------------------------------------------------
  // Reading

  function NextField(s: seq<byte>): (r: Result<Read<Field>>)
    requires s != []
    ensures r.Ok? ==> |r.value.rest| < |s|
  {
    var tag := s[0];
    if tag == TAG_PQ || tag == TAG_CLASSIC then
      match ReadDelimited(s[1..])
      case Err => Err
      case Ok(Read(name, rest)) =>
        if !ValidUtf8(name) then Err
        else Ok(Read(if tag == TAG_PQ then Pq(name) else Classic(name), rest))
    else
      match SkipPayload(tag, s[1..])
      case Err => Err
      case Ok(rest) => Ok(Read(Unknown, rest))
  }

  function Added(p: Pools, f: Field): Pools {
    match f
    case Pq(name) => p.(pq := p.pq + [name])
    case Classic(name) => p.(classic := p.classic + [name])
    case Unknown => p
  }

  function Joined(p: Pools, q: Pools): Pools { Pools(p.pq + q.pq, p.classic + q.classic) }

  /** `p` and then whatever `r` holds. */
  function JoinedResult(p: Pools, r: Result<Pools>): Result<Pools> {
    match r case Err => Err case Ok(q) => Ok(Joined(p, q))
  }

  const EMPTY: Pools := Pools([], [])

  /** Decodes a whole file field by field; it terminates on every buffer. */
  function Decoded(s: seq<byte>): Result<Pools>
    decreases |s|
  {
    if s == [] then Ok(EMPTY)
    else
      match NextField(s)
      case Err => Err
      case Ok(Read(f, rest)) => JoinedResult(Added(EMPTY, f), Decoded(rest))
  }

  method Decode(buf: seq<byte>) returns (r: Result<Pools>)
    requires |buf| < U64
    ensures r == Decoded(buf)
  {
    var p := EMPTY;
    var pos := 0;
    assert buf[0..] == buf;
    if Decoded(buf).Ok? { JoinEmpty(Decoded(buf).value); }
    while pos < |buf|
      invariant pos <= |buf|
      invariant Decoded(buf) == JoinedResult(p, Decoded(buf[pos..]))
      decreases |buf| - pos
    {
      ghost var start, was := pos, p;
      var tag := buf[pos];
      pos := pos + 1;
      assert buf[start..][1..] == buf[pos..];
      if tag == TAG_PQ || tag == TAG_CLASSIC {
        var slice, end := TakeAt(buf, pos);
        if slice.Err? || !ValidUtf8(slice.value) {
          return Err;
        }
        if tag == TAG_PQ {
          p := p.(pq := p.pq + [slice.value]);
        } else {
          p := p.(classic := p.classic + [slice.value]);
        }
        pos := end;
      } else {
        var ok, end := SkipAt(tag, buf, pos);
        if !ok {
          return Err;
        }
        pos := end;
      }
      StepJoins(was, buf[start..]);
    }
    JoinEmpty(p);
    return Ok(p);
  }

  lemma JoinEmpty(q: Pools)
    ensures Joined(EMPTY, q) == q == Joined(q, EMPTY)
  {
  }

  lemma JoinAssociative(p: Pools, q: Pools, r: Pools)
    ensures Joined(p, Joined(q, r)) == Joined(Joined(p, q), r)
  {
    assert p.pq + (q.pq + r.pq) == p.pq + q.pq + r.pq;
    assert p.classic + (q.classic + r.classic) == p.classic + q.classic + r.classic;
  }

  lemma AddedJoins(p: Pools, f: Field)
    ensures Joined(p, Added(EMPTY, f)) == Added(p, f)
  {
  }

  lemma StepJoins(p: Pools, s: seq<byte>)
    requires s != [] && NextField(s).Ok?
    ensures var r := NextField(s).value;
            JoinedResult(p, Decoded(s)) == JoinedResult(Added(p, r.value), Decoded(r.rest))
  {
    var r := NextField(s).value;
    var after := Decoded(r.rest);
    if after.Ok? {
      JoinAssociative(p, Added(EMPTY, r.value), after.value);
      AddedJoins(p, r.value);
    }
  }

  // ---------------------------------------------------------------------------------------------
  // Properties

  lemma NextFieldLocal(s: seq<byte>, more: seq<byte>)
    requires s != [] && NextField(s).Ok?
    ensures var r := NextField(s).value;
            NextField(s + more) == Ok(Read(r.value, r.rest + more))
  {
    assert (s + more)[1..] == s[1..] + more;
    if s[0] == TAG_PQ || s[0] == TAG_CLASSIC {
      ReadDelimitedLocal(s[1..], more);
    } else {
      SkipPayloadLocal(s[0], s[1..], more);
    }
  }

  /** A buffer that decodes contributes its pools in front of whatever follows it, whether or not
      what follows decodes. */
  lemma {:induction false} DecodePrefix(a: seq<byte>, b: seq<byte>)
    requires Decoded(a).Ok?
    ensures Decoded(a + b) == JoinedResult(Decoded(a).value, Decoded(b))
    decreases |a|
  {
    if a == [] {
      assert a + b == b;
      if Decoded(b).Ok? { JoinEmpty(Decoded(b).value); }
    } else {
      NextFieldLocal(a, b);
      var r := NextField(a).value;
      DecodePrefix(r.rest, b);
      if Decoded(b).Ok? {
        JoinAssociative(Added(EMPTY, r.value), Decoded(r.rest).value, Decoded(b).value);
      }
    }
  }

  /** Concatenating two files concatenates both pools. */
  lemma DecodeConcatenation(a: seq<byte>, b: seq<byte>)
    requires Decoded(a).Ok? && Decoded(b).Ok?
    ensures Decoded(a + b) == Ok(Joined(Decoded(a).value, Decoded(b).value))
  {
    DecodePrefix(a, b);
  }

  /** Whatever decodes consists of well-formed names. */
  lemma {:induction false} DecodedIsValid(s: seq<byte>)
    requires Decoded(s).Ok?
    ensures ValidPools(Decoded(s).value)
    decreases |s|
  {
    if s != [] { DecodedIsValid(NextField(s).value.rest); }
  }

  function NonEmpty(names: seq<Text>): seq<Text> {
    if names == [] then []
    else NonEmpty(names[..|names| - 1]) + if names[|names| - 1] == [] then [] else [names[|names| - 1]]
  }

  lemma {:induction false} DecodeStringFields(tag: byte, names: seq<Text>)
    requires (tag == TAG_PQ || tag == TAG_CLASSIC) && ValidTexts(names)
    ensures Decoded(StringFields(tag, names)) ==
            Ok(if tag == TAG_PQ then Pools(NonEmpty(names), []) else Pools([], NonEmpty(names)))
  {
    if names != [] {
      var n := |names| - 1;
      DecodeStringFields(tag, names[..n]);
      if names[n] == [] {
        assert StringFields(tag, names) == StringFields(tag, names[..n]);
        assert NonEmpty(names) == NonEmpty(names[..n]);
      } else {
        DecodePrefix(StringFields(tag, names[..n]), StringField(tag, names[n]));
        DecodeOneString(tag, names[n]);
        AddedJoins(if tag == TAG_PQ then Pools(NonEmpty(names[..n]), []) else Pools([], NonEmpty(names[..n])),
                   if tag == TAG_PQ then Pq(names[n]) else Classic(names[n]));
      }
    }
  }

  lemma DecodeOneString(tag: byte, name: Text)
    requires (tag == TAG_PQ || tag == TAG_CLASSIC) && ValidText(name) && name != []
    ensures Decoded(StringField(tag, name)) == Ok(Added(EMPTY, if tag == TAG_PQ then Pq(name) else Classic(name)))
  {
    OneField(tag, name);
  }

  /** Field 1 (tag byte 0x0A) is a post-quantum name and field 2 (0x12) a classic one. */
  lemma TagMeaning(tag: byte, name: Text)
    requires ValidText(name) && (tag == 0x0A || tag == 0x12)
    ensures Decoded([tag] + Delimited(name)) == Ok(if tag == 0x0A then Pools([name], []) else Pools([], [name]))
  {
    OneField(tag, name);
    assert [] + [name] == [name];
  }

  lemma OneField(tag: byte, name: Text)
    requires ValidText(name) && (tag == TAG_PQ || tag == TAG_CLASSIC)
    ensures Decoded([tag] + Delimited(name)) == Ok(Added(EMPTY, if tag == TAG_PQ then Pq(name) else Classic(name)))
  {
    var s := [tag] + Delimited(name);
    DelimitedRoundTrip(name, []);
    assert s[1..] == Delimited(name) == Delimited(name) + [];
    JoinEmpty(Added(EMPTY, if tag == TAG_PQ then Pq(name) else Classic(name)));
  }

  /** Decoding an encoding returns both pools, in order, without the empty names. */
  lemma RoundTrip(p: Pools)
    requires ValidPools(p)
    ensures Decoded(Encoded(p)) == Ok(Pools(NonEmpty(p.pq), NonEmpty(p.classic)))
  {
    DecodeStringFields(TAG_PQ, p.pq);
    DecodeStringFields(TAG_CLASSIC, p.classic);
    DecodeConcatenation(StringFields(TAG_PQ, p.pq), StringFields(TAG_CLASSIC, p.classic));
    assert Joined(Pools(NonEmpty(p.pq), []), Pools([], NonEmpty(p.classic))) == Pools(NonEmpty(p.pq), NonEmpty(p.classic));
  }

  /** A well-formed field that this version does not know: number 3 to 15, so that its tag is one
      byte, with any of the four supported wire types. */
  ghost predicate UnknownField(u: seq<byte>) {
    u != [] && 3 <= u[0] / 8 <= 15 && SkipPayload(u[0], u[1..]) == Ok([])
  }

  /** Such a field can be inserted at any field boundary without changing the result. */
  lemma UnknownFieldIgnored(a: seq<byte>, u: seq<byte>, b: seq<byte>)
    requires Decoded(a).Ok? && UnknownField(u)
    ensures Decoded(a + u + b) == Decoded(a + b)
  {
    JoinEmpty(EMPTY);
    assert Decoded(u) == Ok(EMPTY);
    DecodePrefix(u, b);
    DecodePrefix(a, b);
    assert a + u + b == a + (u + b);
    DecodePrefix(a, u + b);
    if Decoded(b).Ok? { JoinEmpty(Decoded(b).value); }
  }

  // ---------------------------------------------------------------------------------------------
  // Which unknown fields are ignored

  /** Field numbers of the protobuf wire format go up to 2^29 - 1. */
  const FIELD_LIMIT: nat := 0x2000_0000

  predicate WireType(wt: nat) { wt == 0 || wt == 1 || wt == 2 || wt == 5 }

  /** A whole field: its tag as a varint, and a payload of its wire type. */
  function Tagged(n: nat, wt: nat, payload: seq<byte>): seq<byte> { Varint(8 * n + wt) + payload }

  ghost predicate WellFormed(wt: byte, payload: seq<byte>) { SkipPayload(wt, payload) == Ok([]) }

  /** Every well-formed field with this number and type can be inserted at every field boundary
      without changing what is decoded. */
  ghost predicate AlwaysIgnored(n: nat, wt: byte) {
    forall a, payload, b | Decoded(a).Ok? && WellFormed(wt, payload) ::
      Decoded(a + Tagged(n, wt, payload) + b) == Decoded(a + b)
  }

  lemma SmallNumberIgnored(n: nat, wt: byte, a: seq<byte>, payload: seq<byte>, b: seq<byte>)
    requires 3 <= n <= 15 && WireType(wt) && Decoded(a).Ok? && WellFormed(wt, payload)
    ensures Decoded(a + Tagged(n, wt, payload) + b) == Decoded(a + b)
  {
    var u := Tagged(n, wt, payload);
    var tag := 8 * n + wt;
    assert u == [tag] + payload && u[1..] == payload;
    assert tag / 8 == n && tag % 8 == wt;
    UnknownFieldIgnored(a, u, b);
  }

  /** The first byte of a longer tag is read as the whole tag: its wire type is right, and the rest
      of the tag passes for the beginning of the payload. */
  lemma LongTagSplits(n: nat, wt: nat, payload: seq<byte>)
    requires 16 <= n && wt < 8
    ensures var m := 8 * n + wt;
            && m / 128 >= 1 && m % 128 + 128 < 256 && (m % 128 + 128) % 8 == wt
            && Tagged(n, wt, payload) == [m % 128 + 128] + (Varint(m / 128) + payload)
  {
    var m := 8 * n + wt;
    assert (m % 128 + 128) % 8 == wt;
    Regroup([m % 128 + 128], Varint(m / 128), payload);
  }

  lemma UnknownThen(tag: byte, s: seq<byte>)
    requires tag >= 0x80 && SkipPayload(tag, s).Ok?
    ensures Decoded([tag] + s) == Decoded(SkipPayload(tag, s).value)
  {
    var rest := SkipPayload(tag, s).value;
    assert ([tag] + s)[1..] == s;
    assert NextField([tag] + s) == Ok(Read(Unknown, rest));
    if Decoded(rest).Ok? { JoinEmpty(Decoded(rest).value); }
  }

  /** A varint field with a longer tag is never skipped: its value is read as the next field. */
  lemma LongTagLeavesValue(tag: byte, m: nat, rest: seq<byte>)
    requires tag >= 0x80 && tag % 8 == 0 && m < U64
    ensures Decoded([tag] + (Varint(m) + rest)) == Decoded(rest)
  {
    VarintRoundTrip(m, rest);
    UnknownThen(tag, Varint(m) + rest);
  }

  /** Bytes that no field starts with, because 7 is not a wire type. */
  function Sevens(k: nat): seq<byte> { seq(k, _ => 0x07) }

  lemma SevensUnreadable(s: seq<byte>)
    requires s != [] && s[0] == 0x07
    ensures Decoded(s) == Err
  {
    assert NextField(s) == Err;
  }

  lemma DropSevens(t: seq<byte>, k: nat, d: nat)
    requires |t| <= d < |t| + k
    ensures (t + Sevens(k))[d..] != [] && (t + Sevens(k))[d..][0] == 0x07
  {
  }

  lemma {:induction false} VarintNotLonger(v: nat)
    requires v >= 1
    ensures 1 <= |Varint(v)| <= v
  {
    if v >= 0x80 { VarintNotLonger(v / 0x80); }
  }

  lemma TagRestLength(n: nat, wt: nat)
    requires 16 <= n < FIELD_LIMIT && wt < 8
    ensures 1 <= |Varint((8 * n + wt) / 128)| <= 4
  {
    var v := (8 * n + wt) / 128;
    assert Pow128(2) == 128 * Pow128(1) && Pow128(3) == 128 * Pow128(2) && Pow128(4) == 128 * Pow128(3);
    VarintLengthAtMost(v, 4);
    VarintNotLonger(v);
  }

  /** A payload that turns the whole file unreadable under a longer tag. */
  function Spoiler(n: nat, wt: nat): seq<byte> {
    if wt == 0 then [0x05]
    else if wt == 5 then Sevens(4)
    else if wt == 1 then Sevens(8)
    else Delimited(Sevens((8 * n + wt) / 128))
  }

  lemma SpoilerWellFormed(n: nat, wt: byte)
    requires n < FIELD_LIMIT && WireType(wt)
    ensures WellFormed(wt, Spoiler(n, wt))
  {
    var p := Spoiler(n, wt);
    NothingAfter(p);
    if wt == 0 {
      VarintRoundTrip(5, []);
      assert Varint(5) == p;
    } else if wt == 2 {
      DelimitedRoundTrip(Sevens((8 * n + wt) / 128), []);
    }
  }

  lemma NothingAfter(s: seq<byte>)
    ensures s + [] == s
  {
  }

  lemma FixedSpoils(n: nat, wt: byte)
    requires 16 <= n < FIELD_LIMIT && (wt == 5 || wt == 1)
    ensures Decoded(Tagged(n, wt, Spoiler(n, wt))) == Err
  {
    var m, k := 8 * n + wt, if wt == 5 then 4 else 8;
    var t := Varint(m / 128);
    LongTagSplits(n, wt, Spoiler(n, wt));
    TagRestLength(n, wt);
    DropSevens(t, k, k);
    UnknownThen(m % 128 + 128, t + Sevens(k));
    SevensUnreadable((t + Sevens(k))[k..]);
  }

  /** A length that is really the rest of the tag skips that many bytes of the payload. */
  lemma LengthFromTag(tag: byte, k: nat, payload: seq<byte>)
    requires tag >= 0x80 && tag % 8 == 2 && k < U64 && k <= |payload|
    ensures Decoded([tag] + (Varint(k) + payload)) == Decoded(payload[k..])
  {
    VarintRoundTrip(k, payload);
    UnknownThen(tag, Varint(k) + payload);
  }

  lemma DelimitedSpoils(n: nat)
    requires 16 <= n < FIELD_LIMIT
    ensures Decoded(Tagged(n, 2, Spoiler(n, 2))) == Err
  {
    var m := 8 * n + 2;
    var k := m / 128;
    var payload := Spoiler(n, 2);
    LongTagSplits(n, 2, payload);
    VarintNotLonger(k);
    DropSevens(Varint(k), k, k);
    LengthFromTag(m % 128 + 128, k, payload);
    SevensUnreadable(payload[k..]);
  }

  lemma LongTagSpoils(n: nat, wt: byte)
    requires 16 <= n < FIELD_LIMIT && WireType(wt)
    ensures Decoded(Tagged(n, wt, Spoiler(n, wt))) == Err
  {
    if wt == 0 {
      LongTagSplits(n, 0, [0x05]);
      LongTagLeavesValue(8 * n % 128 + 128, 8 * n / 128, [0x05]);
      assert NextField([0x05]) == Err;
    } else if wt == 2 {
      DelimitedSpoils(n);
    } else {
      FixedSpoils(n, wt);
    }
  }

  /** Unknown fields of a number and type are always ignored exactly up to number 15, where the tag
      still takes one byte; above that, some well-formed field makes a readable file unreadable. */
  lemma IgnoredExactlyUpTo15(n: nat, wt: byte)
    requires 3 <= n < FIELD_LIMIT && WireType(wt)
    ensures AlwaysIgnored(n, wt) <==> n <= 15
  {
    if n <= 15 {
      forall a, payload, b | Decoded(a).Ok? && WellFormed(wt, payload)
        ensures Decoded(a + Tagged(n, wt, payload) + b) == Decoded(a + b)
      {
        SmallNumberIgnored(n, wt, a, payload, b);
      }
    } else {
      var u := Tagged(n, wt, Spoiler(n, wt));
      SpoilerWellFormed(n, wt);
      LongTagSpoils(n, wt);
      assert [] + u + [] == u;
      assert Decoded([]).Ok? && Decoded([] + []) == Ok(EMPTY);
    }
  }
}
