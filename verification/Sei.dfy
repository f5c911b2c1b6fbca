/**
 * User-data-unregistered SEI messages of `crates/metadata-codec/src/lib.rs`,
 * after section 7.3.2.3.1 and Annex D of ITU-T H.264.
 */
module Sei {
  import opened Common
  import opened AnnexB
  import opened Emulation

  datatype Message = Message(uuid: Uuid, payload: seq<Byte>)

  const NAL_SEI: Byte := 6
  const USER_DATA_UNREGISTERED := 5
  const STOP: Byte := 0x80

  function NalType(nal: Nal): nat {
    if nal == [] then 0 else nal[0] % 32
  }

  // ---- ff-coded numbers ----

  function Ff(value: nat): seq<Byte> {
    if value >= 255 then [255] + Ff(value - 255) else [value]
  }

  /** The number at `cursor` added to `value`, and the position behind it. */
  function TakeFf(s: seq<Byte>, cursor: nat, value: nat): (r: Option<(nat, nat)>)
    ensures r.Some? ==> cursor < r.value.1 <= |s|
    decreases |s| - cursor
  {
    if cursor >= |s| || value + s[cursor] > USIZE_MAX then None
    else if s[cursor] != 255 then Some((value + s[cursor], cursor + 1))
    else TakeFf(s, cursor + 1, value + 255)
  }

  lemma {:induction false} TakeFfOfFf(before: seq<Byte>, n: nat, after: seq<Byte>, value: nat)
    requires value + n <= USIZE_MAX
    ensures TakeFf(before + Ff(n) + after, |before|, value) == Some((value + n, |before| + |Ff(n)|))
    decreases n
  {
    var s := before + Ff(n) + after;
    if n >= 255 {
      assert s == (before + [255]) + Ff(n - 255) + after;
      assert s[|before|] == 255;
      TakeFfOfFf(before + [255], n - 255, after, value + 255);
    } else {
      assert s[|before|] == n;
    }
  }

  /** A number is read exactly where its ff form stands, up to the largest `usize`. */
  lemma {:induction false} TakeFfExactly(s: seq<Byte>, cursor: nat, value: nat, total: nat, end: nat)
    requires value <= USIZE_MAX
    ensures TakeFf(s, cursor, value) == Some((total, end)) <==>
            cursor < end <= |s| && value <= total <= USIZE_MAX && s[cursor..end] == Ff(total - value)
    decreases |s| - cursor
  {
    if cursor < |s| && s[cursor] == 255 {
      if value + 255 <= USIZE_MAX {
        TakeFfExactly(s, cursor + 1, value + 255, total, end);
      }
      if cursor + 1 < end <= |s| && value + 255 <= total {
        assert s[cursor..end] == [255] + s[cursor + 1..end];
        assert Ff(total - value) == [255] + Ff(total - value - 255);
        assert s[cursor..end][1..] == s[cursor + 1..end] && Ff(total - value)[1..] == Ff(total - value - 255);
      } else if cursor < end <= |s| && value <= total {
        FfEnds(total - value);
        assert s[cursor..end][0] == 255;
      }
    } else if cursor < end <= |s| && value <= total {
      assert s[cursor..end][0] == s[cursor];
      if s[cursor..end] == Ff(total - value) {
        assert total - value < 255;
      }
    }
  }

  lemma FfEnds(n: nat)
    ensures Ff(n) != [] && (Ff(n)[0] == 255 ==> n >= 255 && |Ff(n)| > 1)
  {
  }

  method PushFfEncoded(target: seq<Byte>, number: nat) returns (out: seq<Byte>)
    ensures out == target + Ff(number)
  {
    out := target;
    var value := number;
    while value >= 255
      invariant out + Ff(value) == target + Ff(number)
    {
      assert out + ([255] + Ff(value - 255)) == out + [255] + Ff(value - 255);
      out := out + [255];
      value := value - 255;
    }
    out := out + [value];
  }

  method TakeFfEncoded(bytes: seq<Byte>, start: nat) returns (r: Option<(nat, nat)>)
    ensures r == TakeFf(bytes, start, 0)
  {
    var cursor, value: nat := start, 0;
    while true
      invariant TakeFf(bytes, cursor, value) == TakeFf(bytes, start, 0)
      decreases |bytes| - cursor
    {
      if cursor >= |bytes| {
        return None;
      }
      var byte := bytes[cursor];
      if value + byte > USIZE_MAX {
        return None;
      }
      cursor := cursor + 1;
      value := value + byte;
      if byte != 255 {
        return Some((value, cursor));
      }
    }
  }

  // ---- One SEI NAL unit ----

  function Rbsp(m: Message): seq<Byte> {
    Ff(USER_DATA_UNREGISTERED) + Ff(16 + |m.payload|) + m.uuid + m.payload + [STOP]
  }

  /** The NAL unit that carries `m`, without its start code. */
  function SeiNal(m: Message): Nal {
    [NAL_SEI] + Escape(0, Rbsp(m))
  }

  /** `make_user_data_sei` fails only when the size does not fit `usize`. */
  predicate Encodable(m: Message) {
    16 + |m.payload| <= USIZE_MAX
  }

  /** One SEI payload: the message it carries, if it is ours, and the position behind it. */
  datatype Item = Item(messages: seq<Message>, next: nat)

  function TakeItem(rbsp: seq<Byte>, cursor: nat): (r: Option<Item>)
    ensures r.Some? ==> cursor < r.value.next <= |rbsp|
  {
    match TakeFf(rbsp, cursor, 0)
    case None => None
    case Some((payloadType, afterType)) =>
      match TakeFf(rbsp, afterType, 0)
      case None => None
      case Some((payloadSize, body)) =>
        var end := body + payloadSize;
        if end > |rbsp| then None
        else if payloadType != USER_DATA_UNREGISTERED then Some(Item([], end))
        else if payloadSize < 16 then None
        else Some(Item([Message(rbsp[body..body + 16], rbsp[body + 16..end])], end))
  }

  /** The user-data-unregistered messages of an unescaped SEI from `cursor` on. */
  function ParseMessages(rbsp: seq<Byte>, cursor: nat): Option<seq<Message>>
    decreases |rbsp| - cursor
  {
    if cursor >= |rbsp| || rbsp[cursor] == STOP then Some([])
    else
      match TakeItem(rbsp, cursor)
      case None => None
      case Some(item) => Append(item.messages, ParseMessages(rbsp, item.next))
  }

  function Append(head: seq<Message>, tail: Option<seq<Message>>): Option<seq<Message>> {
    match tail
    case None => None
    case Some(rest) => Some(head + rest)
  }

  function ParseSei(nal: Nal): Option<seq<Message>> {
    if NalType(nal) != NAL_SEI then None
    else
      match Unescape(0, nal[1..])
      case None => None
      case Some(rbsp) => ParseMessages(rbsp, 0)
  }

  // ---- What a unit of several payloads carries ----

  /** One SEI payload of any type. */
  datatype Payload = Payload(kind: nat, body: seq<Byte>)

  function WritePayload(p: Payload): seq<Byte> { Ff(p.kind) + Ff(|p.body|) + p.body }

  /** The payloads in turn, and the stop byte. */
  function WritePayloads(payloads: seq<Payload>): seq<Byte> {
    if payloads == [] then [STOP] else WritePayload(payloads[0]) + WritePayloads(payloads[1..])
  }

  /**
   * The messages a list of payloads carries: every user-data payload is one, and must be
   * long enough for its UUID; other types are passed over. A payload of type 128 begins
   * like the stop byte and ends the list.
   */
  function Carried(payloads: seq<Payload>): Option<seq<Message>> {
    if payloads == [] || payloads[0].kind == 0x80 then Some([])
    else if payloads[0].kind != 5 then Carried(payloads[1..])
    else if |payloads[0].body| < 16 then None
    else Append([Message(payloads[0].body[..16], payloads[0].body[16..])], Carried(payloads[1..]))
  }

  predicate FitsUsize(payloads: seq<Payload>) {
    forall i :: 0 <= i < |payloads| ==> payloads[i].kind <= USIZE_MAX && |payloads[i].body| <= USIZE_MAX
  }

  lemma FfHead(n: nat)
    ensures Ff(n) != [] && (Ff(n)[0] == 0x80 <==> n == 0x80)
  {
  }

  /** Reading one written payload at its place in a buffer. */
  lemma TakeWritten(before: seq<Byte>, p: Payload, after: seq<Byte>)
    requires p.kind <= USIZE_MAX && |p.body| <= USIZE_MAX
    ensures var end := |before| + |WritePayload(p)|;
            TakeItem(before + WritePayload(p) + after, |before|) ==
            if p.kind != 5 then Some(Item([], end))
            else if |p.body| < 16 then None
            else Some(Item([Message(p.body[..16], p.body[16..])], end))
  {
    hide Ff, TakeFf;
    var typeBytes, sizeBytes := Ff(p.kind), Ff(|p.body|);
    var s := before + WritePayload(p) + after;
    assert s == before + typeBytes + (sizeBytes + p.body + after);
    TakeFfOfFf(before, p.kind, sizeBytes + p.body + after, 0);
    assert s == (before + typeBytes) + sizeBytes + (p.body + after);
    TakeFfOfFf(before + typeBytes, |p.body|, p.body + after, 0);
    var body := |before| + |typeBytes| + |sizeBytes|;
    assert s[body..body + |p.body|] == p.body;
    if |p.body| >= 16 {
      assert s[body..body + 16] == p.body[..16] && s[body + 16..body + |p.body|] == p.body[16..];
    }
  }

  lemma {:induction false} ParseWrittenFrom(before: seq<Byte>, payloads: seq<Payload>)
    requires FitsUsize(payloads)
    ensures ParseMessages(before + WritePayloads(payloads), |before|) == Carried(payloads)
    decreases |payloads|
  {
    hide TakeItem, WritePayload, WritePayloads, Append;
    if payloads == [] {
      WrittenEnd(before);
    } else {
      var p, tail := payloads[0], payloads[1..];
      WrittenHead(before, payloads);
      if p.kind != 0x80 {
        TakeWritten(before, p, WritePayloads(tail));
        ParseWrittenFrom(before + WritePayload(p), tail);
        NothingAppended(Carried(tail));
      }
    }
  }

  lemma WrittenEnd(before: seq<Byte>)
    ensures ParseMessages(before + WritePayloads([]), |before|) == Some([])
  {
    assert (before + WritePayloads([]))[|before|] == STOP;
  }

  lemma WrittenHead(before: seq<Byte>, payloads: seq<Payload>)
    requires payloads != []
    ensures var s := before + WritePayloads(payloads);
            && s == before + WritePayload(payloads[0]) + WritePayloads(payloads[1..])
            && |before| < |s| && (s[|before|] == STOP <==> payloads[0].kind == 0x80)
  {
    var p := payloads[0];
    FfHead(p.kind);
    var s := before + WritePayloads(payloads);
    assert s[|before|] == WritePayload(p)[0] == Ff(p.kind)[0];
    hide Ff, WritePayload;
    ConcatAssociates(before, WritePayload(p), WritePayloads(payloads[1..]));
  }

  lemma NothingAppended(rest: Option<seq<Message>>)
    ensures Append([], rest) == rest
  {
    if rest.Some? {
      assert [] + rest.value == rest.value;
    }
  }

  /** The parser reads exactly what a unit of any number of payloads of any types carries. */
  lemma ParseWritten(header: Byte, payloads: seq<Payload>)
    requires header % 32 == 6 && FitsUsize(payloads)
    ensures ParseSei([header] + Escape(0, WritePayloads(payloads))) == Carried(payloads)
  {
    hide Escape, Unescape, ParseMessages, WritePayloads, Carried;
    var nal := [header] + Escape(0, WritePayloads(payloads));
    assert nal[1..] == Escape(0, WritePayloads(payloads));
    UnescapeEscape(0, WritePayloads(payloads));
    assert [] + WritePayloads(payloads) == WritePayloads(payloads);
    ParseWrittenFrom([], payloads);
  }

  lemma ParseRbsp(m: Message)
    requires Encodable(m)
    ensures ParseMessages(Rbsp(m), 0) == Some([m])
  {
    var rbsp := Rbsp(m);
    assert Ff(USER_DATA_UNREGISTERED) == [5] && rbsp[0] == 5;
    hide TakeItem, Rbsp;
    var end := ItemOfRbsp(m);
    assert ParseMessages(rbsp, end) == Some([]);
    assert [m] + [] == [m];
  }

  /** The one item of an RBSP, up to the stop bit. */
  lemma ItemOfRbsp(m: Message) returns (end: nat)
    requires Encodable(m)
    ensures end == |Rbsp(m)| - 1 && Rbsp(m)[end] == STOP && TakeItem(Rbsp(m), 0) == Some(Item([m], end))
  {
    hide Ff, TakeFf;
    var rbsp := Rbsp(m);
    var size := 16 + |m.payload|;
    var typeBytes, sizeBytes := Ff(USER_DATA_UNREGISTERED), Ff(size);
    var content := m.uuid + m.payload + [STOP];
    assert rbsp == [] + typeBytes + (sizeBytes + content);
    TakeFfOfFf([], USER_DATA_UNREGISTERED, sizeBytes + content, 0);
    assert rbsp == typeBytes + sizeBytes + content;
    TakeFfOfFf(typeBytes, size, content, 0);
    var body := |typeBytes| + |sizeBytes|;
    end := body + size;
    assert rbsp[body..body + 16] == m.uuid;
    assert rbsp[body + 16..end] == m.payload;
  }

  lemma ParseSeiNal(m: Message)
    requires Encodable(m)
    ensures ParseSei(SeiNal(m)) == Some([m])
  {
    hide Escape, Unescape, Rbsp, ParseMessages, Encodable;
    assert SeiNal(m)[1..] == Escape(0, Rbsp(m));
    UnescapeEscape(0, Rbsp(m));
    ParseRbsp(m);
  }

  lemma CleanBehindHeader(header: Byte, escaped: seq<Byte>)
    requires header != 0 && NoStartCodeEmulation(escaped)
    ensures Framable([header] + escaped)
  {
    var nal := [header] + escaped;
    forall i: nat
      ensures !ShortCodeAt(nal, i)
    {
      if i > 0 {
        var k: nat := i - 1;
        assert ShortCodeAt(nal, i) ==> EmulatesAt(escaped, k);
      }
    }
  }

  lemma SeiNalIsFramable(m: Message)
    ensures Framable(SeiNal(m))
  {
    EscapeIsClean(0, Rbsp(m));
    assert Zeros(0) + Escape(0, Rbsp(m)) == Escape(0, Rbsp(m));
    CleanBehindHeader(NAL_SEI, Escape(0, Rbsp(m)));
  }

  method MakeUserDataSei(m: Message) returns (result: Result<seq<Byte>, CodecError>)
    ensures result == if Encodable(m) then Ok(START_CODE + SeiNal(m)) else Err(MalformedSei)
  {
    var payloadSize := 16 + |m.payload|;
    if payloadSize > USIZE_MAX {
      return Err(MalformedSei);
    }
    var rbsp := PushFfEncoded([], USER_DATA_UNREGISTERED);
    rbsp := PushFfEncoded(rbsp, payloadSize);
    rbsp := rbsp + m.uuid;
    rbsp := rbsp + m.payload;
    rbsp := rbsp + [STOP];
    assert rbsp == Rbsp(m);
    var escaped := AddEmulationPrevention(rbsp);
    var nal: seq<Byte> := START_CODE + [NAL_SEI];
    assert nal + escaped == START_CODE + SeiNal(m);
    return Ok(nal + escaped);
  }

  method TakeSeiPayload(rbsp: seq<Byte>, cursor: nat) returns (r: Option<Item>)
    ensures r == TakeItem(rbsp, cursor)
  {
    var payloadType := TakeFfEncoded(rbsp, cursor);
    if payloadType.None? { return None; }
    var payloadSize := TakeFfEncoded(rbsp, payloadType.value.1);
    if payloadSize.None? { return None; }
    var body := payloadSize.value.1;
    var end := body + payloadSize.value.0;
    if end > |rbsp| { return None; }
    if payloadType.value.0 != USER_DATA_UNREGISTERED { return Some(Item([], end)); }
    if payloadSize.value.0 < 16 { return None; }
    return Some(Item([Message(rbsp[body..body + 16], rbsp[body + 16..end])], end));
  }

  lemma AppendAppend(a: seq<Message>, b: seq<Message>, tail: Option<seq<Message>>)
    ensures Append(a, Append(b, tail)) == Append(a + b, tail)
  {
    if tail.Some? {
      assert a + (b + tail.value) == a + b + tail.value;
    }
  }

  method ParseSeiUnit(nal: Nal) returns (r: Option<seq<Message>>)
    ensures r == ParseSei(nal)
  {
    if NalType(nal) != NAL_SEI {
      return None;
    }
    var unescaped := RemoveEmulationPrevention(nal[1..]);
    if unescaped.None? {
      return None;
    }
    var rbsp := unescaped.value;
    var cursor: nat := 0;
    var result: seq<Message> := [];
    assert forall ms: seq<Message> :: [] + ms == ms;
    while cursor < |rbsp| && rbsp[cursor] != STOP
      invariant Append(result, ParseMessages(rbsp, cursor)) == ParseMessages(rbsp, 0)
      decreases |rbsp| - cursor
    {
      var item := TakeSeiPayload(rbsp, cursor);
      if item.None? {
        return None;
      }
      AppendAppend(result, item.value.messages, ParseMessages(rbsp, item.value.next));
      result := result + item.value.messages;
      cursor := item.value.next;
    }
    assert result + [] == result;
    return Some(result);
  }
}
