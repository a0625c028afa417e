/** The protobuf wire primitives that `pb.rs` and `state.rs` each write out by hand: base-128
    varints, length-delimited payloads, and skipping a field of unknown meaning.

    Every reader takes the bytes still ahead and returns what is left of them. Error texts are not
    modelled: an error is `Err`. */
module Wire {
  import opened Bytes
  import opened Wrappers

  datatype Read<+T> = Read(value: T, rest: seq<byte>)

  lemma Regroup<T>(a: seq<T>, b: seq<T>, c: seq<T>)
    ensures (a + b) + c == a + (b + c)
  {
  }

  // ---------------------------------------------------------------------------------------------
  // Varints

  function Varint(v: nat): (s: seq<byte>)
    ensures |s| >= 1
  {
    if v >= 0x80 then [v % 0x80 + 0x80] + Varint(v / 0x80) else [v]
  }

  method PutVarint(out: seq<byte>, v: nat) returns (r: seq<byte>)
    ensures r == out + Varint(v)
  {
    r := out;
    var n := v;
    while n >= 0x80
      invariant r + Varint(n) == out + Varint(v)
    {
      r := r + [n % 0x80 + 0x80];
      n := n / 0x80;
    }
    r := r + [n];
  }

  function Pow128(k: nat): (p: nat)
    ensures p > 0
  {
    if k == 0 then 1 else 128 * Pow128(k - 1)
  }

  /** Seven more bits at position 7 * k of a 64-bit accumulator; bits past the top are shifted out.
      The accumulator only has bits below that position, so the source's `|` is an addition. */
  function Shifted(acc: nat, b: byte, k: nat): nat {
    (acc + (b % 0x80) * Pow128(k)) % U64
  }

  /** Reads on from the `k`-th byte of a varint. */
  function ReadVarintFrom(s: seq<byte>, k: nat, acc: nat): (r: Result<Read<nat>>)
    ensures r.Ok? ==> |r.value.rest| < |s| && r.value.value < U64
  {
    if s == [] then Err
    else if s[0] < 0x80 then Ok(Read(Shifted(acc, s[0], k), s[1..]))
    else if 7 * (k + 1) >= 64 then Err
    else ReadVarintFrom(s[1..], k + 1, Shifted(acc, s[0], k))
  }

  function ReadVarint(s: seq<byte>): (r: Result<Read<nat>>)
    ensures r.Ok? ==> |r.value.rest| < |s| && r.value.value < U64
  {
    ReadVarintFrom(s, 0, 0)
  }

  /** The reader as the source runs it, advancing a position in a buffer. */
  method ReadVarintAt(buf: seq<byte>, pos: nat) returns (r: Result<nat>, end: nat)
    requires pos <= |buf|
    ensures r.Ok? <==> ReadVarint(buf[pos..]).Ok?
    ensures r.Ok? ==> pos < end <= |buf| && ReadVarint(buf[pos..]) == Ok(Read(r.value, buf[end..]))
  {
    var result: nat, shift: nat := 0, 0;
    end := pos;
    ghost var k := 0;
    while true
      invariant pos <= end <= |buf| && shift == 7 * k && shift < 64 && end == pos + k
      invariant ReadVarint(buf[pos..]) == ReadVarintFrom(buf[end..], k, result)
      decreases |buf| - end
    {
      if end >= |buf| {
        return Err, end;
      }
      var b := buf[end];
      assert buf[end..][1..] == buf[end + 1..];
      end := end + 1;
      result := (result + (b % 0x80) * Pow128(shift / 7)) % U64;
      if b < 0x80 {
        return Ok(result), end;
      }
      shift := shift + 7;
      k := k + 1;
      if shift >= 64 {
        return Err, end;
      }
    }
  }

  lemma {:induction false} Pow128Large(k: nat)
    requires k >= 10
    ensures Pow128(k) >= U64
  {
    if k > 10 { Pow128Large(k - 1); } else { assert Pow128(10) == 0x40_0000_0000_0000_0000; }
  }

  lemma SplitDigit(v: nat, p: nat)
    ensures (v % 128) * p + (v / 128) * (128 * p) == v * p
  {
    var q, r := v / 128, v % 128;
    assert v == 128 * q + r;
    assert (128 * q + r) * p == 128 * q * p + r * p;
  }

  /** The low seven bits of a value that fits leave room for the rest. */
  lemma DigitFits(v: nat, k: nat, acc: nat)
    requires acc + v * Pow128(k) < U64
    ensures Shifted(acc, v % 0x80, k) == Shifted(acc, v % 0x80 + 0x80, k) == acc + (v % 0x80) * Pow128(k)
    ensures acc + (v % 0x80) * Pow128(k) + (v / 0x80) * Pow128(k + 1) == acc + v * Pow128(k)
  {
    SplitDigit(v, Pow128(k));
    assert Pow128(k + 1) == 128 * Pow128(k);
    assert (v % 0x80 + 0x80) % 0x80 == v % 0x80;
  }

  /** A value that needs another byte is not at the end of a 64-bit accumulator. */
  lemma RoomForMore(v: nat, k: nat, acc: nat)
    requires acc + v * Pow128(k) < U64 && v >= 0x80
    ensures 7 * (k + 1) < 64
  {
    DigitFits(v, k, acc);
    if k + 1 >= 10 {
      Pow128Large(k + 1);
      assert false;
    }
  }

  lemma {:induction false} ReadPartialVarint(v: nat, rest: seq<byte>, k: nat, acc: nat)
    requires acc + v * Pow128(k) < U64
    ensures ReadVarintFrom(Varint(v) + rest, k, acc) == Ok(Read(acc + v * Pow128(k), rest))
  {
    var s := Varint(v) + rest;
    DigitFits(v, k, acc);
    if v < 0x80 {
      assert s[1..] == rest;
    } else {
      RoomForMore(v, k, acc);
      assert s[1..] == Varint(v / 0x80) + rest;
      ReadPartialVarint(v / 0x80, rest, k + 1, acc + (v % 0x80) * Pow128(k));
    }
  }

  /** Reading a written varint gives the value back, for every 64-bit value and whatever follows. */
  lemma VarintRoundTrip(v: nat, rest: seq<byte>)
    requires v < U64
    ensures ReadVarint(Varint(v) + rest) == Ok(Read(v, rest))
  {
    assert Pow128(0) == 1 && 0 + v * 1 == v;
    ReadPartialVarint(v, rest, 0, 0);
  }

  /** The number whose base-128 digits these are, least significant first. */
  ghost function Number(s: seq<byte>): nat { if s == [] then 0 else s[0] % 128 + 128 * Number(s[1..]) }

  /** A varint is the shortest row of base-128 digits: every byte but the last has its top bit set, and
      the last is not zero unless it is the only one. */
  lemma {:induction false} VarintDigits(v: nat)
    ensures var s := Varint(v);
            && Number(s) == v
            && (forall i | 0 <= i < |s| - 1 :: s[i] >= 128) && s[|s| - 1] < 128
            && (|s| > 1 ==> s[|s| - 1] > 0)
  {
    if v >= 128 {
      VarintDigits(v / 128);
      var s, tail := Varint(v), Varint(v / 128);
      assert s[1..] == tail;
      assert s[0] % 128 == v % 128;
      assert forall i | 1 <= i < |s| :: s[i] == tail[i - 1];
    } else {
      assert Varint(v) == [v] && [v][1..] == [];
      assert Number([]) == 0;
    }
  }

  /** 300 is the two bytes of the protobuf documentation. */
  lemma VarintExample()
    ensures Varint(300) == [0xAC, 0x02] && Delimited([0x68, 0x69]) == [0x02, 0x68, 0x69]
  {
    assert Varint(2) == [0x02];
  }

  /** A varint can be read exactly if one of the first ten bytes ends it. */
  lemma ReadVarintExactly(s: seq<byte>)
    ensures ReadVarint(s).Ok? <==> exists i :: 0 <= i < |s| && i < 10 && s[i] < 128
  {
    ReadsFrom(s, 0, 0);
  }

  lemma {:induction false} ReadsFrom(s: seq<byte>, k: nat, acc: nat)
    requires k < 10
    ensures ReadVarintFrom(s, k, acc).Ok? <==> exists i :: 0 <= i < |s| && i < 10 - k && s[i] < 128
  {
    if s != [] && s[0] >= 128 && k < 9 {
      ReadsFrom(s[1..], k + 1, Shifted(acc, s[0], k));
      if i :| 0 <= i < |s| && i < 10 - k && s[i] < 128 { assert s[1..][i - 1] == s[i]; }
      if i :| 0 <= i < |s[1..]| && i < 10 - (k + 1) && s[1..][i] < 128 { assert s[i + 1] == s[1..][i]; }
    }
  }

  lemma {:induction false} VarintLengthAtMost(v: nat, n: nat)
    requires n >= 1 && v < Pow128(n)
    ensures |Varint(v)| <= n
  {
    if v >= 0x80 {
      VarintLengthAtMost(v / 0x80, n - 1);
    }
  }

  /** Ten bytes are enough for every 64-bit value. */
  lemma VarintAtMostTen(v: nat)
    requires v < U64
    ensures |Varint(v)| <= 10
  {
    Pow128Large(10);
    VarintLengthAtMost(v, 10);
  }

  lemma {:induction false} ReadVarintFromLocal(s: seq<byte>, more: seq<byte>, k: nat, acc: nat)
    requires ReadVarintFrom(s, k, acc).Ok?
    ensures var r := ReadVarintFrom(s, k, acc).value;
            ReadVarintFrom(s + more, k, acc) == Ok(Read(r.value, r.rest + more))
  {
    assert (s + more)[1..] == s[1..] + more;
    if s[0] >= 0x80 { ReadVarintFromLocal(s[1..], more, k + 1, Shifted(acc, s[0], k)); }
  }

  // ---------------------------------------------------------------------------------------------
  // Length-delimited payloads

  function Delimited(payload: seq<byte>): seq<byte> { Varint(|payload|) + payload }

  function ReadDelimited(s: seq<byte>): (r: Result<Read<seq<byte>>>)
    ensures r.Ok? ==> |r.value.rest| < |s| && |r.value.value| < U64
  {
    match ReadVarint(s)
    case Err => Err
    case Ok(Read(n, rest)) => if n > |rest| then Err else Ok(Read(rest[..n], rest[n..]))
  }

  lemma DelimitedRoundTrip(payload: seq<byte>, rest: seq<byte>)
    requires |payload| < U64
    ensures ReadDelimited(Delimited(payload) + rest) == Ok(Read(payload, rest))
  {
    assert Delimited(payload) + rest == Varint(|payload|) + (payload + rest);
    VarintRoundTrip(|payload|, payload + rest);
  }

  lemma ReadDelimitedLocal(s: seq<byte>, more: seq<byte>)
    requires ReadDelimited(s).Ok?
    ensures var r := ReadDelimited(s).value;
            ReadDelimited(s + more) == Ok(Read(r.value, r.rest + more))
  {
    ReadVarintFromLocal(s, more, 0, 0);
    var r := ReadVarint(s).value;
    assert (r.rest + more)[..r.value] == r.rest[..r.value];
    assert (r.rest + more)[r.value..] == r.rest[r.value..] + more;
  }

  method PutDelimited(out: seq<byte>, payload: seq<byte>) returns (r: seq<byte>)
    ensures r == out + Delimited(payload)
  {
    r := PutVarint(out, |payload|);
    r := r + payload;
  }

  /** A length prefix and its payload, as the decoders slice it out of the buffer. */
  method TakeAt(buf: seq<byte>, pos: nat) returns (r: Result<seq<byte>>, end: nat)
    requires pos <= |buf| < U64
    ensures r.Ok? <==> ReadDelimited(buf[pos..]).Ok?
    ensures r.Ok? ==> pos < end <= |buf| && ReadDelimited(buf[pos..]) == Ok(Read(r.value, buf[end..]))
  {
    end := pos;
    var n, after := ReadVarintAt(buf, pos);
    if n.Err? { return Err, end; }
    if after + n.value >= U64 { return Err, end; }
    if after + n.value > |buf| { return Err, end; }
    end := after + n.value;
    r := Ok(buf[after..end]);
    assert buf[after..][..n.value] == buf[after..end] && buf[after..][n.value..] == buf[end..];
  }

  // ---------------------------------------------------------------------------------------------
  // Unknown fields

  /** Skips the payload of a field whose one-byte tag is not recognised. */
  function SkipPayload(tag: byte, s: seq<byte>): (r: Result<seq<byte>>)
    ensures r.Ok? ==> |r.value| <= |s|
  {
    match tag % 8
    case 0 => (match ReadVarint(s) case Err => Err case Ok(r) => Ok(r.rest))
    case 2 => (match ReadDelimited(s) case Err => Err case Ok(r) => Ok(r.rest))
    case 5 => if |s| < 4 then Err else Ok(s[4..])
    case 1 => if |s| < 8 then Err else Ok(s[8..])
    case _ => Err
  }

  /** What is skipped for each wire type: a varint, a length-prefixed payload, eight bytes, four
      bytes; the others (3, 4, 6 and 7) are refused. */
  lemma SkipMeaning(tag: byte, v: nat, payload: seq<byte>, rest: seq<byte>)
    ensures tag % 8 == 0 && v < 0x1_0000_0000_0000_0000 ==> SkipPayload(tag, Varint(v) + rest) == Ok(rest)
    ensures tag % 8 == 2 && |payload| < 0x1_0000_0000_0000_0000 ==> SkipPayload(tag, Delimited(payload) + rest) == Ok(rest)
    ensures tag % 8 == 1 && |payload| == 8 ==> SkipPayload(tag, payload + rest) == Ok(rest)
    ensures tag % 8 == 5 && |payload| == 4 ==> SkipPayload(tag, payload + rest) == Ok(rest)
    ensures tag % 8 == 1 && |payload| < 8 ==> SkipPayload(tag, payload) == Err
    ensures tag % 8 == 5 && |payload| < 4 ==> SkipPayload(tag, payload) == Err
    ensures tag % 8 in {3, 4, 6, 7} ==> SkipPayload(tag, rest) == Err
  {
    if tag % 8 == 0 && v < U64 { VarintRoundTrip(v, rest); }
    if tag % 8 == 2 && |payload| < U64 { DelimitedRoundTrip(payload, rest); }
    assert (payload + rest)[|payload|..] == rest;
  }

  lemma SkipPayloadLocal(tag: byte, s: seq<byte>, more: seq<byte>)
    requires SkipPayload(tag, s).Ok?
    ensures SkipPayload(tag, s + more) == Ok(SkipPayload(tag, s).value + more)
  {
    if tag % 8 == 0 { ReadVarintFromLocal(s, more, 0, 0); }
    else if tag % 8 == 2 { ReadDelimitedLocal(s, more); }
    else if tag % 8 == 5 { assert (s + more)[4..] == s[4..] + more; }
    else { assert (s + more)[8..] == s[8..] + more; }
  }

  /** The skipping code both decoders share, advancing a position in a buffer. */
  method SkipAt(tag: byte, buf: seq<byte>, pos: nat) returns (ok: bool, end: nat)
    requires pos <= |buf| < U64
    ensures ok <==> SkipPayload(tag, buf[pos..]).Ok?
    ensures ok ==> pos <= end <= |buf| && SkipPayload(tag, buf[pos..]) == Ok(buf[end..])
  {
    end := pos;
    var wireType := tag % 8;
    if wireType == 0 {
      var r, after := ReadVarintAt(buf, pos);
      if r.Err? { return false, end; }
      end := after;
    } else if wireType == 2 {
      var r, after := ReadVarintAt(buf, pos);
      if r.Err? { return false, end; }
      if after + r.value >= U64 {
        return false, end;
      }
      end := after + r.value;
    } else if wireType == 5 {
      end := pos + 4;
    } else if wireType == 1 {
      end := pos + 8;
    } else {
      return false, end;
    }
    ok := end <= |buf|;
  }
}
