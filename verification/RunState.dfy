/** The state file of `state.rs`: three lists of `domain,ip` entries nested as length-prefixed
    messages, and a bit mask of completed phases.

    An IP address stands for the text it prints as. `parse` is the standard library's parser, which
    is only assumed to read a printed address back. */
module RunState {
  import opened Bytes
  import opened Wrappers
  import opened Wire

  const PHASE_RESOLVE: nat := 1
  const PHASE_SURVIVAL: nat := 2
  const PHASE_BUILD: nat := 4

  const TAG_PHASE1: byte := 0x0A
  const TAG_PHASE2: byte := 0x12
  const TAG_PHASE3: byte := 0x1A
  const TAG_COMPLETED: byte := 0x20

  const TAG_DOMAIN: byte := 0x0A
  const TAG_IP: byte := 0x12

  type Parser = Text -> Option<Text>

  datatype Entry = Entry(domain: Text, ip: Option<Text>)

  datatype State = State(phase1: seq<Entry>, phase2: seq<Entry>, phase3: seq<Entry>, completed: nat)

  const EMPTY: State := State([], [], [], 0)

  // ---------------------------------------------------------------------------------------------
  // Writing

  function BytesField(tag: byte, payload: seq<byte>): seq<byte> { [tag] + Delimited(payload) }

  function EncodedEntry(e: Entry): seq<byte> {
    BytesField(TAG_DOMAIN, e.domain) + if e.ip.Some? then BytesField(TAG_IP, e.ip.value) else []
  }

  function EncodedEntries(tag: byte, entries: seq<Entry>): seq<byte> {
    if entries == [] then []
    else EncodedEntries(tag, entries[..|entries| - 1]) + BytesField(tag, EncodedEntry(entries[|entries| - 1]))
  }

  function EncodedMask(completed: nat): seq<byte> {
    if completed == 0 then [] else [TAG_COMPLETED] + Varint(completed)
  }

  function Encoded(s: State): seq<byte> {
    EncodedEntries(TAG_PHASE1, s.phase1)
    + EncodedEntries(TAG_PHASE2, s.phase2)
    + EncodedEntries(TAG_PHASE3, s.phase3)
    + EncodedMask(s.completed)
  }

  method PutBytesField(out: seq<byte>, tag: byte, payload: seq<byte>) returns (r: seq<byte>)
    ensures r == out + BytesField(tag, payload)
  {
    r := out + [tag];
    r := PutDelimited(r, payload);
  }

  method EncodeEntry(e: Entry) returns (r: seq<byte>)
    ensures r == EncodedEntry(e)
  {
    r := [];
    r := PutBytesField(r, TAG_DOMAIN, e.domain);
    if e.ip.Some? {
      r := PutBytesField(r, TAG_IP, e.ip.value);
    }
  }

  method PutEntries(out: seq<byte>, tag: byte, entries: seq<Entry>) returns (r: seq<byte>)
    ensures r == out + EncodedEntries(tag, entries)
  {
    r := out;
    for i := 0 to |entries|
      invariant r == out + EncodedEntries(tag, entries[..i])
    {
      assert entries[..i + 1][..i] == entries[..i];
      var payload := EncodeEntry(entries[i]);
      Regroup(out, EncodedEntries(tag, entries[..i]), BytesField(tag, payload));
      r := PutBytesField(r, tag, payload);
    }
    assert entries[..|entries|] == entries;
  }

  method Encode(s: State) returns (r: seq<byte>)
    ensures r == Encoded(s)
  {
    var out: seq<byte> := [];
    r := PutEntries(out, TAG_PHASE1, s.phase1);
    assert r == EncodedEntries(TAG_PHASE1, s.phase1);
    r := PutEntries(r, TAG_PHASE2, s.phase2);
    r := PutEntries(r, TAG_PHASE3, s.phase3);
    if s.completed != 0 {
      ghost var before := r;
      r := r + [TAG_COMPLETED];
      r := PutVarint(r, s.completed);
      Regroup(before, [TAG_COMPLETED], Varint(s.completed));
    }
  }

  // ---------------------------------------------------------------------------------------------
  // Reading an entry

  /** Reads one field of an entry into `e`; fields with other tags are ignored. */
  function ReadEntryField(parse: Parser, e: Entry, s: seq<byte>): (r: Result<Read<Entry>>)
    requires s != []
    ensures r.Ok? ==> |r.value.rest| < |s|
  {
    match ReadDelimited(s[1..])
    case Err => Err
    case Ok(Read(payload, rest)) =>
      if s[0] == TAG_DOMAIN then
        if ValidUtf8(payload) then Ok(Read(e.(domain := payload), rest)) else Err
      else if s[0] == TAG_IP then
        if ValidUtf8(payload) then Ok(Read(e.(ip := parse(payload)), rest)) else Err
      else Ok(Read(e, rest))
  }

  function DecodedEntryFrom(parse: Parser, e: Entry, s: seq<byte>): Result<Entry>
    decreases |s|
  {
    if s == [] then Ok(e)
    else
      match ReadEntryField(parse, e, s)
      case Err => Err
      case Ok(r) => DecodedEntryFrom(parse, r.value, r.rest)
  }

  function DecodedEntry(parse: Parser, s: seq<byte>): Result<Entry> {
    DecodedEntryFrom(parse, Entry([], None), s)
  }

  method DecodeEntry(parse: Parser, buf: seq<byte>) returns (r: Result<Entry>)
    requires |buf| < U64
    ensures r == DecodedEntry(parse, buf)
  {
    var e := Entry([], None);
    var pos := 0;
    assert buf[0..] == buf;
    while pos < |buf|
      invariant pos <= |buf|
      invariant DecodedEntry(parse, buf) == DecodedEntryFrom(parse, e, buf[pos..])
      decreases |buf| - pos
    {
      var tag := buf[pos];
      assert buf[pos..][1..] == buf[pos + 1..];
      var slice, end := TakeAt(buf, pos + 1);
      if slice.Err? {
        return Err;
      }
      if tag == TAG_DOMAIN {
        if !ValidUtf8(slice.value) { return Err; }
        e := e.(domain := slice.value);
      } else if tag == TAG_IP {
        if !ValidUtf8(slice.value) { return Err; }
        e := e.(ip := parse(slice.value));
      }
      pos := end;
    }
    return Ok(e);
  }

  // ---------------------------------------------------------------------------------------------
  // Reading the state

  function ReadField(parse: Parser, st: State, s: seq<byte>): (r: Result<Read<State>>)
    requires s != []
    ensures r.Ok? ==> |r.value.rest| < |s|
  {
    var tag := s[0];
    if tag == TAG_PHASE1 || tag == TAG_PHASE2 || tag == TAG_PHASE3 then
      match ReadDelimited(s[1..])
      case Err => Err
      case Ok(Read(payload, rest)) =>
        match DecodedEntry(parse, payload)
        case Err => Err
        case Ok(e) => Ok(Read(Pushed(st, tag, e), rest))
    else if tag == TAG_COMPLETED then
      match ReadVarint(s[1..])
      case Err => Err
      case Ok(Read(v, rest)) => Ok(Read(st.(completed := v % U32), rest))
    else
      match SkipPayload(tag, s[1..])
      case Err => Err
      case Ok(rest) => Ok(Read(st, rest))
  }

  function Pushed(st: State, tag: byte, e: Entry): State {
    if tag == TAG_PHASE1 then st.(phase1 := st.phase1 + [e])
    else if tag == TAG_PHASE2 then st.(phase2 := st.phase2 + [e])
    else st.(phase3 := st.phase3 + [e])
  }

  function DecodedFrom(parse: Parser, st: State, s: seq<byte>): Result<State>
    decreases |s|
  {
    if s == [] then Ok(st)
    else
      match ReadField(parse, st, s)
      case Err => Err
      case Ok(r) => DecodedFrom(parse, r.value, r.rest)
  }

  function Decoded(parse: Parser, s: seq<byte>): Result<State> { DecodedFrom(parse, EMPTY, s) }

  method Decode(parse: Parser, buf: seq<byte>) returns (r: Result<State>)
    requires |buf| < U64
    ensures r == Decoded(parse, buf)
  {
    var st := EMPTY;
    var pos := 0;
    assert buf[0..] == buf;
    while pos < |buf|
      invariant pos <= |buf|
      invariant Decoded(parse, buf) == DecodedFrom(parse, st, buf[pos..])
      decreases |buf| - pos
    {
      var tag := buf[pos];
      assert buf[pos..][1..] == buf[pos + 1..];
      pos := pos + 1;
      if tag == TAG_PHASE1 || tag == TAG_PHASE2 || tag == TAG_PHASE3 {
        var slice, end := TakeAt(buf, pos);
        if slice.Err? { return Err; }
        var entry := DecodeEntry(parse, slice.value);
        if entry.Err? { return Err; }
        st := Pushed(st, tag, entry.value);
        pos := end;
      } else if tag == TAG_COMPLETED {
        var v, end := ReadVarintAt(buf, pos);
        if v.Err? { return Err; }
        st := st.(completed := v.value % U32);
        pos := end;
      } else {
        var ok, end := SkipAt(tag, buf, pos);
        if !ok { return Err; }
        pos := end;
      }
    }
    return Ok(st);
  }

  // ---------------------------------------------------------------------------------------------
  // Round trip

  /** An entry that a run can hold: a valid name, and an address that parses back. */
  ghost predicate ValidEntry(parse: Parser, e: Entry) {
    && ValidText(e.domain)
    && (e.ip.Some? ==> ValidText(e.ip.value) && parse(e.ip.value) == e.ip)
    && |EncodedEntry(e)| < U64
  }

  ghost predicate ValidEntries(parse: Parser, entries: seq<Entry>) {
    forall i | 0 <= i < |entries| :: ValidEntry(parse, entries[i])
  }

  ghost predicate ValidState(parse: Parser, s: State) {
    ValidEntries(parse, s.phase1) && ValidEntries(parse, s.phase2) && ValidEntries(parse, s.phase3) && s.completed < U32
  }

  lemma ReadBytesField(tag: byte, payload: seq<byte>, rest: seq<byte>)
    requires |payload| < U64
    ensures var s := BytesField(tag, payload) + rest;
            s != [] && s[0] == tag && ReadDelimited(s[1..]) == Ok(Read(payload, rest))
  {
    var s := BytesField(tag, payload) + rest;
    assert s[1..] == Delimited(payload) + rest;
    DelimitedRoundTrip(payload, rest);
  }

  lemma EntryRoundTrip(parse: Parser, e: Entry)
    requires ValidEntry(parse, e)
    ensures DecodedEntry(parse, EncodedEntry(e)) == Ok(e)
  {
    var tail := if e.ip.Some? then BytesField(TAG_IP, e.ip.value) else [];
    ReadBytesField(TAG_DOMAIN, e.domain, tail);
    var named := Entry(e.domain, None);
    assert DecodedEntry(parse, EncodedEntry(e)) == DecodedEntryFrom(parse, named, tail);
    if e.ip.Some? {
      assert tail == tail + [];
      ReadBytesField(TAG_IP, e.ip.value, []);
      assert ReadEntryField(parse, named, tail) == Ok(Read(e, []));
    }
  }

  /** The fields of an entry: 1 (tag byte 0x0A) is the domain and 2 (0x12) the address, which is left
      out if it does not parse. */
  lemma EntryTags(parse: Parser, tag: byte, text: Text)
    requires ValidText(text) && (tag == 0x0A || tag == 0x12)
    ensures DecodedEntry(parse, [tag] + Delimited(text)) == Ok(if tag == 0x0A then Entry(text, None) else Entry([], parse(text)))
  {
    ReadBytesField(tag, text, []);
    assert BytesField(tag, text) + [] == [tag] + Delimited(text);
    LastEntryField(parse, Entry([], None), [tag] + Delimited(text), if tag == 0x0A then Entry(text, None) else Entry([], parse(text)));
  }

  lemma LastEntryField(parse: Parser, e: Entry, s: seq<byte>, e': Entry)
    requires s != [] && ReadEntryField(parse, e, s) == Ok(Read(e', []))
    ensures DecodedEntryFrom(parse, e, s) == Ok(e')
  {
    assert DecodedEntryFrom(parse, e', []) == Ok(e');
  }

  lemma LastField(parse: Parser, st: State, s: seq<byte>, st': State)
    requires s != [] && ReadField(parse, st, s) == Ok(Read(st', []))
    ensures DecodedFrom(parse, st, s) == Ok(st')
  {
    assert DecodedFrom(parse, st', []) == Ok(st');
  }

  /** The fields of the state: 1, 2 and 3 (tag bytes 0x0A, 0x12 and 0x1A) are entries of the phases of
      that number. */
  lemma StateTags(parse: Parser, tag: byte, payload: seq<byte>, e: Entry)
    requires |payload| < U64 && DecodedEntry(parse, payload) == Ok(e) && tag in {0x0A, 0x12, 0x1A}
    ensures Decoded(parse, [tag] + Delimited(payload)) ==
            Ok(State(if tag == 0x0A then [e] else [], if tag == 0x12 then [e] else [], if tag == 0x1A then [e] else [], 0))
  {
    OnePhase(parse, tag, payload, e);
    assert [] + [e] == [e];
  }

  /** Field 4 keeps the low 32 bits of its value. */
  lemma MaskTag(parse: Parser, tag: byte, mask: nat)
    requires tag == 0x20 && mask < 0x1_0000_0000_0000_0000
    ensures Decoded(parse, [tag] + Varint(mask)) == Ok(State([], [], [], mask % 0x1_0000_0000))
  {
    OneMask(parse, EMPTY, tag, mask);
  }

  lemma OneMask(parse: Parser, st: State, tag: byte, mask: nat)
    requires mask < U64 && tag == TAG_COMPLETED
    ensures DecodedFrom(parse, st, [tag] + Varint(mask)) == Ok(st.(completed := mask % U32))
  {
    var s := [tag] + Varint(mask);
    assert s[1..] == Varint(mask) + [];
    VarintRoundTrip(mask, []);
    LastField(parse, st, s, st.(completed := mask % U32));
  }

  lemma OnePhase(parse: Parser, tag: byte, payload: seq<byte>, e: Entry)
    requires |payload| < U64 && DecodedEntry(parse, payload) == Ok(e)
    requires tag == TAG_PHASE1 || tag == TAG_PHASE2 || tag == TAG_PHASE3
    ensures Decoded(parse, [tag] + Delimited(payload)) == Ok(Pushed(EMPTY, tag, e))
  {
    ReadBytesField(tag, payload, []);
    assert BytesField(tag, payload) + [] == [tag] + Delimited(payload);
    LastField(parse, EMPTY, [tag] + Delimited(payload), Pushed(EMPTY, tag, e));
  }

  lemma {:induction false} EntriesRoundTrip(parse: Parser, tag: byte, entries: seq<Entry>, st: State, rest: seq<byte>)
    requires (tag == TAG_PHASE1 || tag == TAG_PHASE2 || tag == TAG_PHASE3) && ValidEntries(parse, entries)
    ensures DecodedFrom(parse, st, EncodedEntries(tag, entries) + rest) == DecodedFrom(parse, Appended(st, tag, entries), rest)
  {
    if entries == [] {
      assert EncodedEntries(tag, entries) + rest == rest;
      assert Appended(st, tag, []) == st;
    } else {
      var n := |entries| - 1;
      var field := BytesField(tag, EncodedEntry(entries[n]));
      Regroup(EncodedEntries(tag, entries[..n]), field, rest);
      EntriesRoundTrip(parse, tag, entries[..n], st, field + rest);
      ReadBytesField(tag, EncodedEntry(entries[n]), rest);
      EntryRoundTrip(parse, entries[n]);
      AppendedLast(st, tag, entries);
    }
  }

  function Appended(st: State, tag: byte, entries: seq<Entry>): State {
    if tag == TAG_PHASE1 then st.(phase1 := st.phase1 + entries)
    else if tag == TAG_PHASE2 then st.(phase2 := st.phase2 + entries)
    else st.(phase3 := st.phase3 + entries)
  }

  lemma AppendedLast(st: State, tag: byte, entries: seq<Entry>)
    requires entries != []
    ensures Pushed(Appended(st, tag, entries[..|entries| - 1]), tag, entries[|entries| - 1]) == Appended(st, tag, entries)
  {
    var n := |entries| - 1;
    assert entries == entries[..n] + [entries[n]];
  }

  lemma MaskRoundTrip(parse: Parser, st: State, completed: nat)
    requires completed < U32 && st.completed == 0
    ensures DecodedFrom(parse, st, EncodedMask(completed)) == Ok(st.(completed := completed))
  {
    if completed != 0 {
      var s := EncodedMask(completed);
      assert s[1..] == Varint(completed) + [];
      VarintRoundTrip(completed, []);
      assert ReadField(parse, st, s) == Ok(Read(st.(completed := completed), []));
    }
  }

  lemma RegroupFour(a: seq<byte>, b: seq<byte>, c: seq<byte>, d: seq<byte>)
    ensures a + b + c + d == a + (b + (c + d))
  {
  }

  /** Loading what was saved gives the same state, for all lists, addresses and masks. */
  lemma RoundTrip(parse: Parser, s: State)
    requires ValidState(parse, s)
    ensures Decoded(parse, Encoded(s)) == Ok(s)
  {
    var e2, e3 := EncodedEntries(TAG_PHASE2, s.phase2), EncodedEntries(TAG_PHASE3, s.phase3);
    var mask := EncodedMask(s.completed);
    RegroupFour(EncodedEntries(TAG_PHASE1, s.phase1), e2, e3, mask);
    var st1 := Appended(EMPTY, TAG_PHASE1, s.phase1);
    EntriesRoundTrip(parse, TAG_PHASE1, s.phase1, EMPTY, e2 + (e3 + mask));
    var st2 := Appended(st1, TAG_PHASE2, s.phase2);
    EntriesRoundTrip(parse, TAG_PHASE2, s.phase2, st1, e3 + mask);
    var st3 := Appended(st2, TAG_PHASE3, s.phase3);
    EntriesRoundTrip(parse, TAG_PHASE3, s.phase3, st2, mask);
    MaskRoundTrip(parse, st3, s.completed);
    assert Appended(Appended(Appended(EMPTY, TAG_PHASE1, s.phase1), TAG_PHASE2, s.phase2), TAG_PHASE3, s.phase3)
           == s.(completed := 0);
  }

  // ---------------------------------------------------------------------------------------------
  // The mask

  predicate IsDone(s: State, phase: nat)
    requires phase > 0
  {
    (s.completed / phase) % 2 == 1
  }

  function MarkedDone(s: State, phase: nat): State
    requires phase > 0
  {
    if IsDone(s, phase) then s else s.(completed := s.completed + phase)
  }
}
