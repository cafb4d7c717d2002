/**
 * Short command and response APDUs (section 5.1 of ISO/IEC 7816-4) as the tool
 * exchanges them with the key's CCID interface.
 */
module Ccid {
  import opened Bytes
  import opened Results

  /** A short command APDU: header, command data and an optional Le field. */
  datatype Command = Command(cla: byte, ins: byte, p1: byte, p2: byte, data: seq<byte>, le: Option<byte>)

  /** The bytes the Le field contributes: none, or the one Le byte. */
  function LeField(le: Option<byte>): seq<byte>
  {
    match le
    case None => []
    case Some(n) => [n]
  }

  /**
   * The request for class 0x00: the header, then Lc and the data when there is
   * data, then Le when one is given. Data longer than 255 bytes has no one-byte Lc.
   */
  function BuildRequest(ins: byte, p1: byte, p2: byte, data: seq<byte>, le: Option<byte>): (r: Result<seq<byte>>)
    ensures r.Err? <==> |data| > 255
    ensures r.Err? ==> r.error == LcTooLong
    ensures r.Ok? ==> |r.value| == 4 + (if |data| > 0 then 1 + |data| else 0) + (if le.Some? then 1 else 0)
  {
    if |data| > 255 then Err(LcTooLong)
    else
      var body := if |data| > 0 then [|data| as byte] + data else [];
      Ok([0x00, ins, p1, p2] + body + LeField(le))
  }

  /**
   * The layout of a built request: the header 00 INS P1 P2 first; Lc = |data|
   * and the data unchanged when there is data; nothing but Le after the header
   * when there is none; Le, when given, last.
   */
  lemma BuildRequestLayout(ins: byte, p1: byte, p2: byte, data: seq<byte>, le: Option<byte>)
    requires |data| <= 255
    ensures var req := BuildRequest(ins, p1, p2, data, le).value;
      && req[..4] == [0x00, ins, p1, p2]
      && (|data| > 0 ==> req[4] as int == |data| && req[5..5 + |data|] == data)
      && (data == [] ==> req[4..] == LeField(le))
      && (le.Some? ==> req[|req| - 1] == le.value)
  {
  }

  /**
   * The receiving side of section 5.1 of ISO/IEC 7816-4 for short APDUs: four
   * header bytes (case 1), a lone Le byte (case 2), a non-zero Lc and that many
   * data bytes (case 3), optionally followed by Le (case 4).
   */
  function ParseRequest(req: seq<byte>): (c: Option<Command>)
    ensures c.Some? ==> 4 <= |req| && [c.value.cla, c.value.ins, c.value.p1, c.value.p2] == req[..4]
    ensures c.Some? ==> |c.value.data| <= 255
  {
    if |req| < 4 then None
    else if |req| == 4 then Some(Command(req[0], req[1], req[2], req[3], [], None))
    else if |req| == 5 then Some(Command(req[0], req[1], req[2], req[3], [], Some(req[4])))
    else
      var lc := req[4] as int;
      if lc == 0 then None
      else if |req| == 5 + lc then Some(Command(req[0], req[1], req[2], req[3], req[5..], None))
      else if |req| == 6 + lc then Some(Command(req[0], req[1], req[2], req[3], req[5..5 + lc], Some(req[5 + lc])))
      else None
  }

  /** Every request the tool builds reads back as the command it was built from. */
  lemma ParseBuiltRequest(ins: byte, p1: byte, p2: byte, data: seq<byte>, le: Option<byte>)
    requires BuildRequest(ins, p1, p2, data, le).Ok?
    ensures ParseRequest(BuildRequest(ins, p1, p2, data, le).value) == Some(Command(0x00, ins, p1, p2, data, le))
  {
    var req := BuildRequest(ins, p1, p2, data, le).value;
    BuildRequestLayout(ins, p1, p2, data, le);
    if data != [] && le.None? {
      assert req[5..] == data;
    }
  }

  /** Conversely, every well-formed short command of class 0x00 is a request the tool can build. */
  lemma BuildParsedRequest(req: seq<byte>)
    requires ParseRequest(req).Some? && ParseRequest(req).value.cla == 0x00
    ensures var c := ParseRequest(req).value;
      BuildRequest(c.ins, c.p1, c.p2, c.data, c.le) == Ok(req)
  {
    var c := ParseRequest(req).value;
    var built := BuildRequest(c.ins, c.p1, c.p2, c.data, c.le).value;
    BuildRequestLayout(c.ins, c.p1, c.p2, c.data, c.le);
    assert |built| == |req|;
    assert built[..4] == req[..4];
    forall i | 4 <= i < |req|
      ensures built[i] == req[i]
    {
      if c.data != [] {
        assert built[4] == req[4];
        if i < 5 + |c.data| && i > 4 {
          assert built[i] == built[5..5 + |c.data|][i - 5];
        }
      } else {
        assert built[4..] == LeField(c.le);
      }
    }
    assert built == req;
  }

  /**
   * Ne, the number of response data bytes Le asks for: none without Le, and in
   * the short form Le = 0 stands for 256.
   */
  function ExpectedLength(le: Option<byte>): (ne: nat)
    ensures ne <= 256
  {
    match le
    case None => 0
    case Some(n) => if n == 0 then 256 else n as nat
  }

  /** The size of the reply buffer handed to the reader: Ne data bytes and SW1 SW2. */
  function ResponseCapacity(le: Option<byte>): (r: nat)
    ensures le.None? ==> r == 2
    ensures le == Some(0) ==> r == 258
    ensures le.Some? && le.value != 0 ==> r == le.value as nat + 2
    ensures r == ExpectedLength(le) + 2
  {
    (match le
     case None => 0
     case Some(n) => if n == 0 then 255 + 1 else n as nat) + 2
  }

  /**
   * Splits a reply into payload and status word; only status 90 00 is success.
   * A reply without two status bytes is malformed.
   */
  function DecodeResponse(received: seq<byte>): (r: Result<seq<byte>>)
    ensures |received| < 2 ==> r == Err(ResponseTooShort)
    ensures |received| >= 2 ==> (r.Ok? <==> received[|received| - 2..] == [0x90, 0x00])
    ensures r.Ok? ==> r.value == received[..|received| - 2]
    ensures |received| >= 2 && r.Err? ==>
      r.error == StatusWord(received[|received| - 2], received[|received| - 1])
  {
    if |received| < 2 then Err(ResponseTooShort)
    else
      var sw1, sw2 := received[|received| - 2], received[|received| - 1];
      if sw1 == 0x90 && sw2 == 0x00 then Ok(received[..|received| - 2])
      else Err(StatusWord(sw1, sw2))
  }

  /** A reply as a card sends it: response data followed by SW1 SW2. */
  function EncodeResponse(payload: seq<byte>, sw1: byte, sw2: byte): (r: seq<byte>)
    ensures |r| == |payload| + 2
  {
    payload + [sw1, sw2]
  }

  /** Decoding what a card encodes gives its payload back exactly when it reports 90 00. */
  lemma DecodeEncodedResponse(payload: seq<byte>, sw1: byte, sw2: byte)
    ensures DecodeResponse(EncodeResponse(payload, sw1, sw2)) ==
      if sw1 == 0x90 && sw2 == 0x00 then Ok(payload) else Err(StatusWord(sw1, sw2))
  {
  }

  /** A successful decode came from exactly one reply: the payload followed by 90 00. */
  lemma DecodedResponseIsEncoded(received: seq<byte>)
    requires DecodeResponse(received).Ok?
    ensures received == EncodeResponse(DecodeResponse(received).value, 0x90, 0x00)
  {
  }

  /**
   * What the reader delivers for a request with the given Le. The card's answer
   * is an input: None when the transmit call fails. An answer longer than the
   * reply buffer cannot be delivered, so the transmit call fails for it too.
   */
  function Receive(le: Option<byte>, reply: Option<seq<byte>>): (r: Result<seq<byte>>)
    ensures r.Ok? ==> |r.value| <= ExpectedLength(le)
  {
    match reply
    case None => Err(TransmitFailed)
    case Some(received) =>
      if |received| > ResponseCapacity(le) then Err(TransmitFailed) else DecodeResponse(received)
  }

  /** One command-response pair: nothing is sent when the request cannot be built. */
  function Exchange(ins: byte, p1: byte, p2: byte, data: seq<byte>, le: Option<byte>, reply: Option<seq<byte>>): Result<seq<byte>>
  {
    match BuildRequest(ins, p1, p2, data, le)
    case Err(e) => Err(e)
    case Ok(_) => Receive(le, reply)
  }

  /** The first half of ccid_transmit: the request vector, pushed onto step by step. */
  method PushRequest(ins: byte, p1: byte, p2: byte, data: seq<byte>, le: Option<byte>) returns (r: Result<seq<byte>>)
    ensures r == BuildRequest(ins, p1, p2, data, le)
  {
    var request: seq<byte> := [0x00, ins, p1, p2];
    if |data| > 0 {
      if |data| > 255 {
        return Err(LcTooLong);
      }
      request := request + [|data| as byte];
      request := request + data;
    }
    if le.Some? {
      request := request + [le.value];
    }
    assert request == BuildRequest(ins, p1, p2, data, le).value;
    r := Ok(request);
  }

  /**
   * The second half of ccid_transmit: a zeroed buffer sized from Le, filled by
   * the reader, cut to the received length, then SW2 and SW1 popped off.
   */
  method ReadResponse(le: Option<byte>, reply: Option<seq<byte>>) returns (r: Result<seq<byte>>)
    ensures r == Receive(le, reply)
  {
    var responseLen := (match le case None => 0 case Some(n) => if n == 0 then 255 + 1 else n as nat) + 2;
    var response: seq<byte> := seq(responseLen, _ => 0);
    if reply.None? || |reply.value| > |response| {
      return Err(TransmitFailed);
    }
    ghost var received := reply.value;
    var n := |reply.value|;
    response := reply.value + response[n..];
    assert response[..n] == received;
    response := response[..n];
    if |response| == 0 {
      return Err(ResponseTooShort);
    }
    var sw2 := response[|response| - 1];
    response := response[..|response| - 1];
    if |response| == 0 {
      return Err(ResponseTooShort);
    }
    var sw1 := response[|response| - 1];
    response := response[..|response| - 1];
    assert response == received[..n - 2];
    assert received[n - 2..] == [sw1, sw2];
    if sw1 == 0x90 && sw2 == 0x00 {
      r := Ok(response);
    } else {
      r := Err(StatusWord(sw1, sw2));
    }
  }

  /**
   * ccid_transmit: builds the request, and only when that succeeds hands it to
   * the reader and reads the reply.
   */
  method Transmit(ins: byte, p1: byte, p2: byte, data: seq<byte>, le: Option<byte>, reply: Option<seq<byte>>)
    returns (sent: Option<seq<byte>>, r: Result<seq<byte>>)
    ensures BuildRequest(ins, p1, p2, data, le).Err? ==> sent == None
    ensures BuildRequest(ins, p1, p2, data, le).Ok? ==> sent == Some(BuildRequest(ins, p1, p2, data, le).value)
    ensures r == Exchange(ins, p1, p2, data, le, reply)
    ensures r.Ok? ==> |r.value| <= ExpectedLength(le)
  {
    var request := PushRequest(ins, p1, p2, data, le);
    if request.Err? {
      return None, Err(request.error);
    }
    sent := Some(request.value);
    r := ReadResponse(le, reply);
  }

  /** Application identifiers of the admin and provisioner applications. */
  const AID_ADMIN: seq<byte> := [0xA0, 0x00, 0x00, 0x08, 0x47, 0x00, 0x00, 0x00, 0x01]
  const AID_PROVISIONER: seq<byte> := [0xA0, 0x00, 0x00, 0x08, 0x47, 0x01, 0x00, 0x00, 0x01]

  /** ccid_select: SELECT by AID without Le; the payload is discarded. */
  function Select(aid: seq<byte>, reply: Option<seq<byte>>): (r: Result<()>)
    ensures r.Ok? <==> Exchange(0xA4, 0x04, 0x00, aid, None, reply).Ok?
    ensures r.Err? ==> r.error == Exchange(0xA4, 0x04, 0x00, aid, None, reply).error
  {
    match Exchange(0xA4, 0x04, 0x00, aid, None, reply)
    case Ok(_) => Ok(())
    case Err(e) => Err(e)
  }

  /** ccid_select2: SELECT by AID with Le = 16, since the provisioner answers with its UUID. */
  function Select2(aid: seq<byte>, reply: Option<seq<byte>>): (r: Result<()>)
    ensures r.Ok? <==> Exchange(0xA4, 0x04, 0x00, aid, Some(16), reply).Ok?
    ensures r.Err? ==> r.error == Exchange(0xA4, 0x04, 0x00, aid, Some(16), reply).error
  {
    match Exchange(0xA4, 0x04, 0x00, aid, Some(16), reply)
    case Ok(_) => Ok(())
    case Err(e) => Err(e)
  }

  /** A SELECT of a short AID without Le succeeds exactly when the card answers 90 00 alone. */
  lemma SelectSucceedsIff(aid: seq<byte>, reply: Option<seq<byte>>)
    requires |aid| <= 255
    ensures Select(aid, reply).Ok? <==> reply == Some([0x90, 0x00])
  {
  }

  /** admin_get_uuid: instruction 0x62 with Le = 16; the payload must be 16 big-endian bytes. */
  function AdminGetUuid(reply: Option<seq<byte>>): (r: Result<u128>)
    ensures r.Ok? <==> Exchange(0x62, 0x00, 0x00, [], Some(16), reply).Ok? &&
                       |Exchange(0x62, 0x00, 0x00, [], Some(16), reply).value| == 16
    ensures r.Ok? ==> r.value as nat == BeValue(Exchange(0x62, 0x00, 0x00, [], Some(16), reply).value)
    ensures Exchange(0x62, 0x00, 0x00, [], Some(16), reply).Err? ==>
      r == Err(Exchange(0x62, 0x00, 0x00, [], Some(16), reply).error)
    ensures Exchange(0x62, 0x00, 0x00, [], Some(16), reply).Ok? && r.Err? ==>
      r.error == UuidLength
  {
    match Exchange(0x62, 0x00, 0x00, [], Some(16), reply)
    case Err(e) => Err(e)
    case Ok(payload) =>
      if |payload| == 16 then Ok(U128FromBeBytes(payload)) else Err(UuidLength)
  }

  /** The UUID query sends the case 2 command 00 62 00 00 10. */
  lemma AdminGetUuidRequest()
    ensures BuildRequest(0x62, 0x00, 0x00, [], Some(16)) == Ok([0x00, 0x62, 0x00, 0x00, 0x10])
  {
    assert [0x00, 0x62, 0x00, 0x00] + [] + LeField(Some(16)) == [0x00, 0x62, 0x00, 0x00, 0x10];
  }

  /**
   * The UUID query succeeds exactly when the card answers 16 bytes and 90 00,
   * and the UUID is those 16 bytes read big-endian.
   */
  lemma AdminGetUuidSucceedsIff(reply: Option<seq<byte>>)
    ensures AdminGetUuid(reply).Ok? <==>
      reply.Some? && |reply.value| == 18 && reply.value[16..] == [0x90, 0x00]
    ensures AdminGetUuid(reply).Ok? ==> AdminGetUuid(reply).value as nat == BeValue(reply.value[..16])
  {
  }

  /** A card that answers with the 16 bytes of a UUID and 90 00 yields that UUID. */
  lemma AdminGetUuidRoundTrip(uuid: u128)
    ensures AdminGetUuid(Some(EncodeResponse(U128ToBeBytes(uuid), 0x90, 0x00))) == Ok(uuid)
  {
    DecodeEncodedResponse(U128ToBeBytes(uuid), 0x90, 0x00);
    U128RoundTrip(uuid);
  }

  /**
   * The provisioner answers its SELECT with a 16-byte UUID: that answer fits the
   * buffer of a SELECT with Le = 16 but not the two bytes of one without Le.
   */
  lemma SelectNeedsLeForUuidAnswer(uuid: seq<byte>)
    requires |uuid| == 16
    ensures Select2(AID_PROVISIONER, Some(EncodeResponse(uuid, 0x90, 0x00))).Ok?
    ensures Select(AID_PROVISIONER, Some(EncodeResponse(uuid, 0x90, 0x00))) == Err(TransmitFailed)
  {
    DecodeEncodedResponse(uuid, 0x90, 0x00);
  }
}

