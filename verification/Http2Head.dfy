/** The minimal HTTP/2 client of `h2.rs`: it parses frames out of whatever pieces the connection
    delivers, acknowledges SETTINGS, and stops at the first HEADERS frame that decodes a `:status`. */
module Http2Head {
  import opened Bytes
  import opened Wrappers
  import opened Wire

  const FRAME_HEADERS: byte := 0x1
  const FRAME_SETTINGS: byte := 0x4
  const FLAG_ACK: byte := 0x1

  const STATIC_TABLE: seq<(string, string)> := [
    (":authority", ""), (":method", "GET"), (":method", "POST"), (":path", "/"), (":path", "/index.html"),
    (":scheme", "http"), (":scheme", "https"), (":status", "200"), (":status", "204"), (":status", "206"),
    (":status", "304"), (":status", "400"), (":status", "404"), (":status", "500"), ("accept-charset", "")]

  // ---------------------------------------------------------------------------------------------
  // Frames (section 4.1 of RFC 9113)

  datatype Frame = Frame(typ: byte, flags: byte, sid: nat, payload: seq<byte>)

  /** A frame that fits its header: 24-bit length, 32-bit stream identifier. */
  predicate Writable(f: Frame) { |f.payload| < 0x100_0000 && f.sid < U32 }

  function BigEndian4(v: nat): seq<byte> {
    [(v / 0x100_0000) % 256, (v / 0x1_0000) % 256, (v / 0x100) % 256, v % 256]
  }

  function Header(f: Frame): seq<byte> { BigEndian4(|f.payload|)[1..4] + [f.typ, f.flags] + BigEndian4(f.sid) }

  function FrameBytes(f: Frame): seq<byte> { Header(f) + f.payload }

  method WriteFrame(out: seq<byte>, typ: byte, flags: byte, sid: nat, payload: seq<byte>) returns (r: seq<byte>)
    ensures r == out + FrameBytes(Frame(typ, flags, sid, payload))
  {
    r := out + BigEndian4(|payload|)[1..4];
    r := r + [typ];
    r := r + [flags];
    r := r + BigEndian4(sid);
    r := r + payload;
  }

  function Join3(a: nat, b: nat, c: nat): nat { a * 0x1_0000 + b * 0x100 + c }

  function Join4(a: nat, b: nat, c: nat, d: nat): nat { a * 0x100_0000 + Join3(b, c, d) }

  function PayloadLength(s: seq<byte>): nat
    requires |s| >= 3
  {
    Join3(s[0], s[1], s[2])
  }

  /** The frame at the front of `s`, if all of it is there. */
  function FirstFrame(s: seq<byte>): (r: Option<Read<Frame>>)
    ensures r.Some? ==> |r.value.rest| < |s|
  {
    if |s| < 9 || |s| < 9 + PayloadLength(s) then None
    else
      var n := PayloadLength(s);
      Some(Read(Frame(s[3], s[4], Join4(s[5], s[6], s[7], s[8]), s[9..9 + n]), s[9 + n..]))
  }

  /** All complete frames of a byte string, in order. */
  function Frames(s: seq<byte>): seq<Frame>
    decreases |s|
  {
    match FirstFrame(s)
    case None => []
    case Some(r) => [r.value] + Frames(r.rest)
  }

  function Serialized(frames: seq<Frame>): seq<byte> {
    if frames == [] then [] else FrameBytes(frames[0]) + Serialized(frames[1..])
  }

  // ---------------------------------------------------------------------------------------------
  // The answer a sequence of frames calls for

  /** The entry at an index counted from 1; other indices name nothing. */
  function TableEntry(index: nat): seq<(string, string)> {
    if 1 <= index <= |STATIC_TABLE| then [STATIC_TABLE[index - 1]] else []
  }

  /** Indexed header fields at the front of a header block; anything else ends the reading. */
  function StaticFields(block: seq<byte>): seq<(string, string)> {
    if block == [] || block[0] < 0x80 then []
    else
      TableEntry(block[0] - 0x80) + StaticFields(block[1..])
  }

  lemma StaticNext(block: seq<byte>, i: nat)
    requires i < |block| && block[i] >= 0x80
    ensures StaticFields(block[i..]) == TableEntry(block[i] % 0x80) + StaticFields(block[i + 1..])
  {
    assert block[i..][1..] == block[i + 1..];
    assert block[i] - 0x80 == block[i] % 0x80;
  }

  lemma StaticStep(block: seq<byte>, i: nat, r: seq<(string, string)>)
    requires i < |block| && block[i] >= 0x80
    ensures r + StaticFields(block[i..]) == (r + TableEntry(block[i] % 0x80)) + StaticFields(block[i + 1..])
  {
    StaticNext(block, i);
    Regroup(r, TableEntry(block[i] % 0x80), StaticFields(block[i + 1..]));
  }

  method DecodeStatic(block: seq<byte>) returns (r: seq<(string, string)>)
    ensures r == StaticFields(block)
  {
    r := [];
    var i := 0;
    while i < |block|
      invariant i <= |block|
      invariant StaticFields(block) == r + StaticFields(block[i..])
    {
      var b := block[i];
      if b < 0x80 {
        break;
      }
      StaticStep(block, i, r);
      r := r + TableEntry(b % 0x80);
      i := i + 1;
    }
  }

  /** Collecting pairs into a map: a later value for a name replaces an earlier one. */
  function Collected(fields: seq<(string, string)>): map<string, string> {
    if fields == [] then map[]
    else Collected(fields[..|fields| - 1])[fields[|fields| - 1].0 := fields[|fields| - 1].1]
  }

  /** The headers, if any were found before the connection closed, and the SETTINGS frames
      acknowledged until then. */
  datatype Answer = Answer(headers: Option<map<string, string>>, acks: nat)

  function Acked(n: nat, a: Answer): Answer { Answer(a.headers, n + a.acks) }

  predicate IsSettings(f: Frame) { f.typ == FRAME_SETTINGS && f.flags % 2 == 0 }

  function HeadersOf(f: Frame): map<string, string> { Collected(StaticFields(f.payload)) }

  predicate IsFinal(f: Frame) { f.typ == FRAME_HEADERS && ":status" in HeadersOf(f) }

  function AnswerTo(frames: seq<Frame>): Answer {
    if frames == [] then Answer(None, 0)
    else if IsFinal(frames[0]) then Answer(Some(HeadersOf(frames[0])), 0)
    else Acked(if IsSettings(frames[0]) then 1 else 0, AnswerTo(frames[1..]))
  }

  // ---------------------------------------------------------------------------------------------
  // The reading loop

  function Flattened(pieces: seq<seq<byte>>): seq<byte> {
    if pieces == [] then [] else pieces[0] + Flattened(pieces[1..])
  }

  const ACK: Frame := Frame(FRAME_SETTINGS, FLAG_ACK, 0, [])

  function Acks(n: nat): seq<byte> { if n == 0 then [] else Acks(n - 1) + FrameBytes(ACK) }

  lemma FirstFrameLocal(s: seq<byte>, more: seq<byte>)
    requires FirstFrame(s).Some?
    ensures var r := FirstFrame(s).value; FirstFrame(s + more) == Some(Read(r.value, r.rest + more))
  {
    var n := PayloadLength(s);
    assert (s + more)[9..9 + n] == s[9..9 + n];
    assert (s + more)[9 + n..] == s[9 + n..] + more;
  }

  /** What the bytes still ahead call for, after their first frame has been handled. */
  lemma AnswerStep(s: seq<byte>, more: seq<byte>)
    requires FirstFrame(s).Some?
    ensures var r := FirstFrame(s).value;
            AnswerTo(Frames(s + more)) ==
              if IsFinal(r.value) then Answer(Some(HeadersOf(r.value)), 0)
              else Acked(if IsSettings(r.value) then 1 else 0, AnswerTo(Frames(r.rest + more)))
  {
    FirstFrameLocal(s, more);
    var r := FirstFrame(s).value;
    assert Frames(s + more)[1..] == Frames(r.rest + more);
  }

  /** After `acks` acknowledgements, `whole` is answered by answering the bytes still ahead. */
  ghost predicate Owed(whole: Answer, acks: nat, ahead: seq<byte>) {
    whole == Acked(acks, AnswerTo(Frames(ahead)))
  }

  lemma OwedAfterFrame(whole: Answer, acks: nat, s: seq<byte>, more: seq<byte>)
    requires FirstFrame(s).Some? && Owed(whole, acks, s + more)
    ensures var r := FirstFrame(s).value;
            if IsFinal(r.value) then whole == Answer(Some(HeadersOf(r.value)), acks)
            else Owed(whole, acks + (if IsSettings(r.value) then 1 else 0), r.rest + more)
  {
    AnswerStep(s, more);
  }

  /** The frame at position `i` of a buffer, where the loop looks for it. */
  ghost function FrameAt(acc: seq<byte>, i: nat, len: nat): Frame
    requires i + 9 + len <= |acc|
  {
    Frame(acc[i + 3], acc[i + 4], Join4(acc[i + 5], acc[i + 6], acc[i + 7], acc[i + 8]), acc[i + 9..i + 9 + len])
  }

  lemma FirstFrameAt(acc: seq<byte>, i: nat)
    requires i <= |acc|
    ensures i + 9 > |acc| ==> FirstFrame(acc[i..]).None?
    ensures i + 9 <= |acc| ==>
              var len := Join3(acc[i], acc[i + 1], acc[i + 2]);
              FirstFrame(acc[i..]) == if i + 9 + len > |acc| then None else Some(Read(FrameAt(acc, i, len), acc[i + 9 + len..]))
  {
    if i + 9 <= |acc| {
      var s, len := acc[i..], Join3(acc[i], acc[i + 1], acc[i + 2]);
      if i + 9 + len <= |acc| {
        assert s[9..9 + len] == acc[i + 9..i + 9 + len] && s[9 + len..] == acc[i + 9 + len..];
      }
    }
  }

  /** What one frame makes the client do: stop with its headers, acknowledge it, or go on. */
  method React(typ: byte, flags: byte, ghost sid: nat, block: seq<byte>) returns (found: Option<map<string, string>>, ack: bool)
    ensures found == if IsFinal(Frame(typ, flags, sid, block)) then Some(HeadersOf(Frame(typ, flags, sid, block))) else None
    ensures ack <==> IsSettings(Frame(typ, flags, sid, block))
  {
    found, ack := None, false;
    if typ == FRAME_HEADERS {
      var fields := DecodeStatic(block);
      var headers := Collected(fields);
      if ":status" in headers {
        found := Some(headers);
      }
    } else if typ == FRAME_SETTINGS && flags % 2 == 0 {
      ack := true;
    }
  }

  method Acknowledge(written: seq<byte>, ghost before: nat) returns (r: seq<byte>)
    requires written == Acks(before)
    ensures r == Acks(before + 1)
  {
    r := WriteFrame(written, FRAME_SETTINGS, FLAG_ACK, 0, []);
  }

  lemma OwedAfterFrameAt(whole: Answer, acks: nat, acc: seq<byte>, at: nat, len: nat, more: seq<byte>)
    requires at + 9 + len <= |acc| && len == Join3(acc[at], acc[at + 1], acc[at + 2])
    requires Owed(whole, acks, acc[at..] + more)
    ensures var f := FrameAt(acc, at, len);
            if IsFinal(f) then whole == Answer(Some(HeadersOf(f)), acks)
            else Owed(whole, acks + (if IsSettings(f) then 1 else 0), acc[at + 9 + len..] + more)
  {
    FirstFrameAt(acc, at);
    OwedAfterFrame(whole, acks, acc[at..], more);
  }

  /** One round of the inner loop, on the frame of `len` payload bytes at `at`. */
  method Handle(acc: seq<byte>, at: nat, len: nat, ghost more: seq<byte>, ghost whole: Answer, acks: nat, written: seq<byte>)
    returns (found: Option<map<string, string>>, acks': nat, written': seq<byte>)
    requires at + 9 + len <= |acc| && len == Join3(acc[at], acc[at + 1], acc[at + 2])
    requires written == Acks(acks) && Owed(whole, acks, acc[at..] + more)
    ensures written' == Acks(acks')
    ensures found.Some? ==> whole == Answer(found, acks')
    ensures found.None? ==> Owed(whole, acks', acc[at + 9 + len..] + more)
  {
    acks', written' := acks, written;
    OwedAfterFrameAt(whole, acks, acc, at, len, more);
    var ack;
    found, ack := React(acc[at + 3], acc[at + 4], FrameAt(acc, at, len).sid, acc[at + 9..at + 9 + len]);
    if found.None? && ack {
      written' := Acknowledge(written, acks);
      acks' := acks + 1;
    }
  }

  /** Handles the complete frames at the front of `acc`, exactly as the inner loop of `head` does:
      it stops early with the answer, or says how much of `acc` it used up. `more` is what the
      connection will deliver later. */
  method Drain(acc: seq<byte>, ghost more: seq<byte>, ghost whole: Answer, before: nat, sent: seq<byte>)
    returns (found: Option<map<string, string>>, used: nat, acks: nat, written: seq<byte>)
    requires sent == Acks(before) && Owed(whole, before, acc + more)
    ensures written == Acks(acks) && used <= |acc|
    ensures found.Some? ==> whole == Answer(found, acks)
    ensures found.None? ==> FirstFrame(acc[used..]).None? && Owed(whole, acks, acc[used..] + more)
  {
    found, used, acks, written := None, 0, before, sent;
    assert acc[0..] == acc;
    while used + 9 <= |acc|
      invariant used <= |acc| && written == Acks(acks) && found.None?
      invariant Owed(whole, acks, acc[used..] + more)
      decreases |acc| - used
    {
      var len := Join3(acc[used], acc[used + 1], acc[used + 2]);
      if used + 9 + len > |acc| {
        break;
      }
      found, acks, written := Handle(acc, used, len, more, whole, acks, written);
      if found.Some? {
        return;
      }
      used := used + 9 + len;
    }
    FirstFrameAt(acc, used);
  }

  /** One read of the outer loop: what it delivers joins the buffer, and complete frames leave it. */
  method Round(acc: seq<byte>, piece: seq<byte>, ghost later: seq<byte>, ghost whole: Answer, total: nat, written: seq<byte>)
    returns (found: Option<map<string, string>>, acc': seq<byte>, total': nat, written': seq<byte>)
    requires written == Acks(total) && Owed(whole, total, acc + (piece + later))
    ensures written' == Acks(total')
    ensures found.Some? ==> whole == Answer(found, total')
    ensures found.None? ==> FirstFrame(acc').None? && Owed(whole, total', acc' + later)
  {
    Regroup(acc, piece, later);
    acc' := acc + piece;
    var used;
    found, used, total', written' := Drain(acc', later, whole, total, written);
    acc' := acc'[used..];
  }

  lemma NothingOwed(whole: Answer, total: nat, acc: seq<byte>, pieces: seq<seq<byte>>)
    requires FirstFrame(acc).None? && Owed(whole, total, acc + Flattened(pieces[|pieces|..]))
    ensures whole == Answer(None, total)
  {
    assert acc + Flattened(pieces[|pieces|..]) == acc;
    assert Frames(acc) == [];
  }

  /** Reads until a final HEADERS frame arrives or the connection closes. However the peer's bytes
      are split into reads, the answer and the acknowledgements are those of the frames in the
      whole byte string. */
  method Head(pieces: seq<seq<byte>>) returns (r: Answer, written: seq<byte>)
    requires forall i | 0 <= i < |pieces| :: 1 <= |pieces[i]| <= 8192
    ensures r == AnswerTo(Frames(Flattened(pieces)))
    ensures exists n :: CalledFor(Frames(Flattened(pieces)), n, r)
    ensures written == Acks(r.acks)
  {
    var acc: seq<byte> := [];
    var total := 0;
    written := [];
    ghost var whole := AnswerTo(Frames(Flattened(pieces)));
    ghost var n := AnswerMeaning(Frames(Flattened(pieces)));
    assert pieces[0..] == pieces && [] + Flattened(pieces) == Flattened(pieces);
    for i := 0 to |pieces|
      invariant written == Acks(total) && FirstFrame(acc).None?
      invariant Owed(whole, total, acc + Flattened(pieces[i..]))
    {
      var found;
      found, acc, total, written := Round(acc, pieces[i], Flattened(pieces[i + 1..]), whole, total, written);
      if found.Some? {
        return Answer(found, total), written;
      }
    }
    NothingOwed(whole, total, acc, pieces);
    r := Answer(None, total);
  }

  // ---------------------------------------------------------------------------------------------
  // Frames read back as written

  lemma BigEndianReads(v: nat)
    requires v < U32
    ensures var b := BigEndian4(v);
            Join4(b[0], b[1], b[2], b[3]) == v
  {
    var a, b := v / 0x100, v / 0x1_0000;
    Division(v, 0x100);
    Division(a, 0x100);
    Division(b, 0x100);
    DivideOnce(v);
    DivideTwice(v);
    assert b / 0x100 < 0x100;
    assert (v / 0x100_0000) % 256 == b / 0x100;
  }

  lemma Division(v: nat, d: nat)
    requires d > 0
    ensures v == d * (v / d) + v % d
  {
  }

  lemma DivideOnce(v: nat)
    ensures v / 0x100 / 0x100 == v / 0x1_0000
  {
  }

  lemma DivideTwice(v: nat)
    ensures v / 0x1_0000 / 0x100 == v / 0x100_0000
  {
  }

  lemma LengthReads(n: nat)
    requires n < 0x100_0000
    ensures var b := BigEndian4(n); Join3(b[1], b[2], b[3]) == n
  {
    BigEndianReads(n);
    assert n / 0x100_0000 == 0;
  }

  lemma HeaderReads(f: Frame, tail: seq<byte>)
    requires Writable(f)
    ensures var s := Header(f) + tail;
            && |s| == 9 + |tail| && PayloadLength(s) == |f.payload|
            && s[3] == f.typ && s[4] == f.flags && Join4(s[5], s[6], s[7], s[8]) == f.sid
  {
    LengthReads(|f.payload|);
    BigEndianReads(f.sid);
  }

  lemma FrameRoundTrip(f: Frame, rest: seq<byte>)
    requires Writable(f)
    ensures FirstFrame(FrameBytes(f) + rest) == Some(Read(f, rest))
  {
    Regroup(Header(f), f.payload, rest);
    HeaderReads(f, f.payload + rest);
  }

  lemma FramesOfFirst(f: Frame, rest: seq<byte>)
    requires Writable(f)
    ensures Frames(FrameBytes(f) + rest) == [f] + Frames(rest)
  {
    FrameRoundTrip(f, rest);
  }

  /** Parsing a serialised sequence of frames gives it back, followed by whatever else is there. */
  lemma {:induction false} FramesRoundTrip(frames: seq<Frame>, rest: seq<byte>)
    requires forall i | 0 <= i < |frames| :: Writable(frames[i])
    ensures Frames(Serialized(frames) + rest) == frames + Frames(rest)
  {
    if frames == [] {
      assert Serialized(frames) + rest == rest;
    } else {
      var tail := Serialized(frames[1..]) + rest;
      Regroup(FrameBytes(frames[0]), Serialized(frames[1..]), rest);
      FramesOfFirst(frames[0], tail);
      FramesRoundTrip(frames[1..], rest);
      Regroup([frames[0]], frames[1..], Frames(rest));
      assert [frames[0]] + frames[1..] == frames;
    }
  }

  /** So a peer that sends these frames, in whatever reads they arrive, gets exactly the answer they
      call for. */
  lemma AnswerToPeer(frames: seq<Frame>, pieces: seq<seq<byte>>)
    requires forall i | 0 <= i < |frames| :: Writable(frames[i])
    requires Flattened(pieces) == Serialized(frames)
    ensures AnswerTo(Frames(Flattened(pieces))) == AnswerTo(frames)
  {
    assert Serialized(frames) + [] == Serialized(frames);
    FramesRoundTrip(frames, []);
    assert frames + Frames([]) == frames;
  }

  // ---------------------------------------------------------------------------------------------
  // What the answer means, byte by byte

  /** The byte at `j` is read: it and all before it are indexed fields. */
  ghost predicate Indexed(block: seq<byte>, j: nat) { j < |block| && forall i | 0 <= i <= j :: block[i] >= 0x80 }

  /** A byte stands for this one field. */
  ghost predicate Stands(b: byte, name: string, value: string) { StaticFields([b]) == [(name, value)] }

  lemma OneByte(b: byte)
    ensures StaticFields([b]) == if b < 0x80 then [] else TableEntry(b - 0x80)
  {
    assert [b][1..] == [];
    assert StaticFields([]) == [];
  }

  lemma RequestFields()
    ensures Stands(0x81, ":authority", "") && Stands(0x82, ":method", "GET") && Stands(0x83, ":method", "POST")
    ensures Stands(0x84, ":path", "/") && Stands(0x85, ":path", "/index.html")
    ensures Stands(0x86, ":scheme", "http") && Stands(0x87, ":scheme", "https") && Stands(0x8F, "accept-charset", "")
  {
    forall b: byte | 0x81 <= b <= 0x8F ensures StaticFields([b]) == [STATIC_TABLE[b - 0x81]] { OneByte(b); }
  }

  lemma StatusFields()
    ensures Stands(0x88, ":status", "200") && Stands(0x89, ":status", "204") && Stands(0x8A, ":status", "206")
    ensures Stands(0x8B, ":status", "304") && Stands(0x8C, ":status", "400") && Stands(0x8D, ":status", "404")
    ensures Stands(0x8E, ":status", "500")
  {
    forall b: byte | 0x81 <= b <= 0x8F ensures StaticFields([b]) == [STATIC_TABLE[b - 0x81]] { OneByte(b); }
  }

  /** The fifteen fields of Appendix A of RFC 7541 that the client knows. */
  lemma IndexedFields()
    ensures Stands(0x81, ":authority", "") && Stands(0x82, ":method", "GET") && Stands(0x83, ":method", "POST")
    ensures Stands(0x84, ":path", "/") && Stands(0x85, ":path", "/index.html")
    ensures Stands(0x86, ":scheme", "http") && Stands(0x87, ":scheme", "https")
    ensures Stands(0x88, ":status", "200") && Stands(0x89, ":status", "204") && Stands(0x8A, ":status", "206")
    ensures Stands(0x8B, ":status", "304") && Stands(0x8C, ":status", "400") && Stands(0x8D, ":status", "404")
    ensures Stands(0x8E, ":status", "500") && Stands(0x8F, "accept-charset", "")
  {
    RequestFields();
    StatusFields();
  }

  /** Other bytes stand for nothing. */
  lemma OtherBytes(b: byte)
    requires b <= 0x80 || b >= 0x90
    ensures StaticFields([b]) == []
  {
    OneByte(b);
  }

  ghost predicate Names(b: byte, name: string) { exists v :: Stands(b, name, v) }

  function StatusText(b: byte): string {
    match b
    case 0x88 => "200"
    case 0x89 => "204"
    case 0x8A => "206"
    case 0x8B => "304"
    case 0x8C => "400"
    case 0x8D => "404"
    case 0x8E => "500"
    case _ => ""
  }

  /** Exactly the bytes 0x88 to 0x8E stand for a status. */
  lemma StatusBytes(b: byte)
    ensures Names(b, ":status") <==> 0x88 <= b <= 0x8E
    ensures forall v :: Stands(b, ":status", v) ==> v == StatusText(b)
  {
    if b <= 0x80 || b >= 0x90 {
      OtherBytes(b);
      assert forall v :: !Stands(b, ":status", v);
    } else {
      StatusRow(b - 0x81);
      OneByte(b);
      var entry := STATIC_TABLE[b - 0x81];
      assert StaticFields([b]) == [entry];
      assert forall n, v :: Stands(b, n, v) ==> entry == (n, v) by {
        assert forall n, v :: Stands(b, n, v) ==> StaticFields([b])[0] == (n, v);
      }
      if 0x88 <= b <= 0x8E { assert Stands(b, ":status", entry.1); }
    }
  }

  lemma StatusRow(k: nat)
    requires k < 15
    ensures STATIC_TABLE[k].0 == ":status" <==> 7 <= k <= 13
    ensures 7 <= k <= 13 ==> STATIC_TABLE[k].1 == StatusText(0x81 + k)
  {
    assert |":authority"| == 10 && |":method"| == 7 && |":path"| == 5 && |":status"| == 7 && |"accept-charset"| == 14;
    assert ":method"[1] == 'm' && ":scheme"[2] == 'c' && ":status"[1] == 's' && ":status"[2] == 't';
  }

  lemma {:induction false} CollectedConcat(a: seq<(string, string)>, b: seq<(string, string)>)
    ensures Collected(a + b) == Collected(a) + Collected(b)
  {
    if b == [] {
      assert a + b == a;
    } else {
      var n := |b| - 1;
      CollectedConcat(a, b[..n]);
      assert (a + b)[..|a + b| - 1] == a + b[..n];
    }
  }

  ghost function Fields(block: seq<byte>): map<string, string> { Collected(StaticFields(block)) }

  lemma FieldsStep(block: seq<byte>)
    requires block != [] && block[0] >= 0x80
    ensures Fields(block) == Fields([block[0]]) + Fields(block[1..])
  {
    assert [block[0]][1..] == [];
    assert StaticFields([block[0]]) == TableEntry(block[0] - 0x80) + [];
    assert StaticFields([block[0]]) == TableEntry(block[0] - 0x80);
    CollectedConcat(StaticFields([block[0]]), StaticFields(block[1..]));
  }

  lemma OneField(b: byte, name: string)
    ensures name in Fields([b]) <==> Names(b, name)
    ensures name in Fields([b]) ==> Stands(b, name, Fields([b])[name])
  {
    OneByte(b);
    var s := StaticFields([b]);
    if |s| == 1 {
      assert s == [s[0]] && s[..0] == [];
      assert Collected([]) == map[];
      assert Collected(s) == map[s[0].0 := s[0].1];
      assert name == s[0].0 ==> Stands(b, name, s[0].1);
      assert forall v :: Stands(b, name, v) ==> s[0] == (name, v);
    }
  }

  /** Of the bytes that are read, the one at `j` is the last that stands for `name`. */
  ghost predicate LastNaming(block: seq<byte>, name: string, j: nat) {
    Indexed(block, j) && Names(block[j], name) && forall i: nat | j < i && Indexed(block, i) :: !Names(block[i], name)
  }

  lemma IndexedTail(block: seq<byte>, j: nat)
    requires block != [] && block[0] >= 0x80 && j > 0
    ensures Indexed(block, j) <==> Indexed(block[1..], j - 1)
  {
    if Indexed(block[1..], j - 1) {
      forall i | 0 <= i <= j ensures block[i] >= 0x80 {
        if i > 0 { assert block[i] == block[1..][i - 1]; }
      }
    }
  }

  ghost predicate NeverNamed(block: seq<byte>, name: string) {
    forall i: nat :: Indexed(block, i) ==> !Names(block[i], name)
  }

  lemma LastInTail(block: seq<byte>, name: string, j: nat)
    requires block != [] && block[0] >= 0x80 && LastNaming(block[1..], name, j)
    ensures LastNaming(block, name, j + 1) && block[j + 1] == block[1..][j]
  {
    IndexedTail(block, j + 1);
    forall i: nat | j + 1 < i && Indexed(block, i) ensures !Names(block[i], name) {
      IndexedTail(block, i);
      assert block[i] == block[1..][i - 1];
    }
  }

  lemma NotInTail(block: seq<byte>, name: string)
    requires block != [] && block[0] >= 0x80 && NeverNamed(block[1..], name)
    ensures Names(block[0], name) ==> LastNaming(block, name, 0)
    ensures !Names(block[0], name) ==> NeverNamed(block, name)
  {
    assert Indexed(block, 0);
    forall i: nat | 0 < i && Indexed(block, i) ensures !Names(block[i], name) {
      IndexedTail(block, i);
      assert block[i] == block[1..][i - 1];
    }
  }

  /** A header is found exactly if one of the bytes read stands for it; the last one gives its value. */
  lemma {:induction false} FieldsMeaning(block: seq<byte>, name: string) returns (j: nat)
    ensures name in Fields(block) ==> LastNaming(block, name, j) && Stands(block[j], name, Fields(block)[name])
    ensures name !in Fields(block) ==> NeverNamed(block, name)
  {
    j := 0;
    if block != [] && block[0] >= 0x80 {
      FieldsStep(block);
      OneField(block[0], name);
      var k := FieldsMeaning(block[1..], name);
      if name in Fields(block[1..]) {
        LastInTail(block, name, k);
        j := k + 1;
      } else {
        NotInTail(block, name);
      }
    } else {
      assert forall i: nat :: !Indexed(block, i);
    }
  }

  ghost predicate StatusAt(block: seq<byte>, j: nat) { Indexed(block, j) && 0x88 <= block[j] <= 0x8E }

  /** A frame ends the reading exactly if it is a HEADERS frame (type 1) with one of the bytes 0x88 to
      0x8E among the indexed fields at its front; the last of them is the status. */
  lemma FinalExactly(f: Frame)
    ensures IsFinal(f) <==> f.typ == 0x1 && exists j: nat :: StatusAt(f.payload, j)
    ensures forall j: nat :: f.typ == 0x1 && StatusAt(f.payload, j) && (forall i: nat :: j < i ==> !StatusAt(f.payload, i)) ==>
              IsFinal(f) && HeadersOf(f)[":status"] == StatusText(f.payload[j])
  {
    forall b: byte ensures Names(b, ":status") <==> 0x88 <= b <= 0x8E { StatusBytes(b); }
    var block := f.payload;
    var last := FieldsMeaning(block, ":status");
    if ":status" in Fields(block) {
      assert StatusAt(block, last);
      StatusBytes(block[last]);
      forall i: nat | last < i && Indexed(block, i) ensures !StatusAt(block, i) {
        assert !Names(block[i], ":status");
      }
    } else {
      forall j: nat | Indexed(block, j) ensures !(0x88 <= block[j] <= 0x8E) { assert !Names(block[j], ":status"); }
    }
  }

  /** The first final frame is at `n`, or there is none before the end. */
  ghost predicate FirstFinal(frames: seq<Frame>, n: nat) {
    n <= |frames| && (forall i | 0 <= i < n :: !IsFinal(frames[i])) && (n < |frames| ==> IsFinal(frames[n]))
  }

  ghost predicate AsksForAck(f: Frame) { f.typ == 0x4 && f.flags % 2 == 0 }

  ghost function Asking(frames: seq<Frame>, n: nat): set<nat> {
    set i: nat | i < n && i < |frames| && AsksForAck(frames[i])
  }

  ghost function Shifted(s: set<nat>): set<nat> { set i: nat | i in s :: i + 1 }

  lemma AskingMoved(frames: seq<Frame>, n: nat)
    requires frames != [] && n > 0
    ensures Asking(frames, n) == Shifted(Asking(frames[1..], n - 1)) + if AsksForAck(frames[0]) then {0} else {}
  {
    var tail := Asking(frames[1..], n - 1);
    forall i: nat | i in Asking(frames, n) && i > 0 ensures i in Shifted(tail) { assert i - 1 in tail; }
  }

  lemma AskingTail(frames: seq<Frame>, n: nat)
    requires frames != [] && n > 0
    ensures |Asking(frames, n)| == |Asking(frames[1..], n - 1)| + if AsksForAck(frames[0]) then 1 else 0
  {
    var tail := Asking(frames[1..], n - 1);
    AskingMoved(frames, n);
    ShiftedSize(tail);
    assert 0 !in Shifted(tail);
  }

  lemma {:induction false} ShiftedSize(s: set<nat>)
    ensures |Shifted(s)| == |s|
  {
    if s != {} {
      var x :| x in s;
      forall y: nat | y in Shifted(s) && y != x + 1 ensures y in Shifted(s - {x}) {
        var i: nat :| i in s && y == i + 1;
        assert i in s - {x};
      }
      assert Shifted(s) == Shifted(s - {x}) + {x + 1};
      ShiftedSize(s - {x});
    }
  }

  /** With the first final frame at `n`: one acknowledgement for every SETTINGS frame (type 4) without
      the ACK flag (the lowest bit) before it, and its headers. */
  ghost predicate CalledFor(frames: seq<Frame>, n: nat, answer: Answer) {
    && FirstFinal(frames, n)
    && answer.acks == |Asking(frames, n)|
    && answer.headers == if n < |frames| then Some(HeadersOf(frames[n])) else None
  }

  lemma {:induction false} AnswerMeaning(frames: seq<Frame>) returns (n: nat)
    ensures CalledFor(frames, n, AnswerTo(frames))
  {
    n := 0;
    if frames != [] && !IsFinal(frames[0]) {
      n := AnswerMeaning(frames[1..]);
      n := n + 1;
      AskingTail(frames, n);
    } else {
      assert Asking(frames, 0) == {};
    }
  }

  /** The number whose base-256 digits these are, most significant first. */
  ghost function BigEndian(s: seq<byte>): nat {
    if s == [] then 0 else 256 * BigEndian(s[..|s| - 1]) + s[|s| - 1]
  }

  lemma ThreeBytes(a: byte, b: byte, c: byte)
    ensures BigEndian([a, b, c]) == Join3(a, b, c)
  {
    assert [a, b, c][..2] == [a, b] && [a, b][..1] == [a] && [a][..0] == [];
    assert BigEndian([a]) == a;
    assert BigEndian([a, b]) == 256 * a + b;
  }

  lemma FourBytes(a: byte, b: byte, c: byte, d: byte)
    ensures BigEndian([a, b, c, d]) == Join4(a, b, c, d)
  {
    assert [a, b, c, d][..3] == [a, b, c];
    ThreeBytes(a, b, c);
  }

  /** The layout of section 4.1 of RFC 9113: three bytes of length, one of type, one of flags, four of
      stream identifier, most significant first, and then the payload. */
  lemma FrameLayout(f: Frame)
    requires |f.payload| < 0x100_0000 && f.sid < 0x1_0000_0000
    ensures var s := FrameBytes(f);
            && |s| == 9 + |f.payload|
            && BigEndian(s[..3]) == |f.payload|
            && s[3] == f.typ && s[4] == f.flags
            && BigEndian(s[5..9]) == f.sid
            && s[9..] == f.payload
  {
    HeaderReads(f, f.payload);
    var s := FrameBytes(f);
    ThreeBytes(s[0], s[1], s[2]);
    FourBytes(s[5], s[6], s[7], s[8]);
    assert s[..3] == [s[0], s[1], s[2]] && s[5..9] == [s[5], s[6], s[7], s[8]];
  }

  lemma SplitFrame(s: seq<byte>, n: nat)
    requires |s| >= 9 + n
    ensures s == [s[0], s[1], s[2]] + [s[3], s[4]] + [s[5], s[6], s[7], s[8]] + s[9..9 + n] + s[9 + n..]
  {
  }

  lemma BigEndianWrites(a: byte, b: byte, c: byte, d: byte)
    ensures Join4(a, b, c, d) < U32 && BigEndian4(Join4(a, b, c, d)) == [a, b, c, d]
  {
    var v := Join4(a, b, c, d);
    assert v == 0x100 * (a * 0x1_0000 + b * 0x100 + c) + d;
    assert v / 0x100 == a * 0x1_0000 + b * 0x100 + c;
    assert v / 0x1_0000 == a * 0x100 + b;
    assert v / 0x100_0000 == a;
  }

  /** A frame is read exactly if its bytes are there, and then nothing else is read. */
  lemma FrameExactly(s: seq<byte>, f: Frame, rest: seq<byte>)
    ensures FirstFrame(s) == Some(Read(f, rest)) <==> Writable(f) && s == FrameBytes(f) + rest
  {
    if FirstFrame(s) == Some(Read(f, rest)) {
      var n := PayloadLength(s);
      BigEndianWrites(0, s[0], s[1], s[2]);
      BigEndianWrites(s[5], s[6], s[7], s[8]);
      SplitFrame(s, n);
      assert BigEndian4(n) == [0, s[0], s[1], s[2]];
      assert Header(f) == [s[0], s[1], s[2]] + [s[3], s[4]] + [s[5], s[6], s[7], s[8]];
    }
    if Writable(f) { FrameRoundTrip(f, rest); }
  }

  /** An acknowledgement is an empty SETTINGS frame with the ACK flag on stream 0. */
  lemma AckBytes()
    ensures Acks(1) == [0, 0, 0, 4, 1, 0, 0, 0, 0]
  {
    assert Acks(0) == [];
    assert FrameBytes(ACK) == [0, 0, 0, 4, 1, 0, 0, 0, 0];
  }
}
