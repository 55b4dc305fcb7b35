/** The plaintext packet formats (internal/protocol/packet.go). */
module Packets {
  import opened Basics

  const HEADER_SIZE := 6
  const BODY_SIZE := 18

  const STREAM_DATA: byte := 0x11
  const FLAG_MUX: byte := 0x20

  datatype PacketError = PacketTooShort | DecryptionFailed | CreateAEAD

  /** The part of a packet that travels in the clear. */
  datatype PacketHeader = PacketHeader(userID: Bytes, timestamp: uint16) {
    predicate Valid() { |userID| == 4 }

    function Serialize(): (b: Bytes)
      requires Valid()
      ensures |b| == HEADER_SIZE
    {
      userID + PutUint16(timestamp)
    }
  }

  function ParseHeader(data: Bytes): Result<PacketHeader, PacketError> {
    if |data| < HEADER_SIZE then Err(PacketTooShort) else Ok(PacketHeader(data[..4], GetUint16(data[4..6])))
  }

  datatype Packet = Packet(
    header: PacketHeader, kind: byte, sessionID: uint32, streamID: uint32, sequence: uint32, ackSeq: uint32, flags: byte, payload: Bytes)
  {
    function Serialize(): (b: Bytes)
      ensures |b| == BODY_SIZE + |payload|
    {
      [kind] + PutUint32(sessionID) + PutUint32(streamID) + PutUint32(sequence) + PutUint32(ackSeq) + [flags] + payload
    }
  }

  const NO_HEADER := PacketHeader([0, 0, 0, 0], 0)

  function ParsePacket(data: Bytes): Result<Packet, PacketError> {
    if |data| < BODY_SIZE then Err(PacketTooShort)
    else
      Ok(Packet(NO_HEADER, data[0], GetUint32(data[1..5]), GetUint32(data[5..9]), GetUint32(data[9..13]),
                GetUint32(data[13..17]), data[17], data[18..]))
  }

  lemma HeaderRoundTrip(h: PacketHeader, rest: Bytes)
    requires h.Valid()
    ensures ParseHeader(h.Serialize() + rest) == Ok(h)
  {
    var data := h.Serialize() + rest;
    assert data[..4] == h.userID;
    assert data[4..6] == PutUint16(h.timestamp);
    Uint16RoundTrip(h.timestamp, [0, 0]);
  }

  /** Every packet parses to itself; the clear header is not part of the plaintext. */
  lemma PacketRoundTrip(p: Packet)
    ensures ParsePacket(p.Serialize()) == Ok(p.(header := NO_HEADER))
  {
    var data := p.Serialize();
    hide PutUint32, GetUint32;
    Uint32RoundTrip(p.sessionID);
    Uint32RoundTrip(p.streamID);
    Uint32RoundTrip(p.sequence);
    Uint32RoundTrip(p.ackSeq);
    assert data[1..5] == PutUint32(p.sessionID);
    assert data[5..9] == PutUint32(p.streamID);
    assert data[9..13] == PutUint32(p.sequence);
    assert data[13..17] == PutUint32(p.ackSeq);
    assert data[18..] == p.payload;
  }

  /** Every eighteen bytes or more are some packet, and serializing it gives them back. */
  lemma PacketInverse(data: Bytes)
    requires |data| >= BODY_SIZE
    ensures ParsePacket(data).Ok? && ParsePacket(data).value.Serialize() == data
  {
    hide PutUint32, GetUint32;
    Uint32Inverse(data[1..5]);
    Uint32Inverse(data[5..9]);
    Uint32Inverse(data[9..13]);
    Uint32Inverse(data[13..17]);
    assert data == [data[0]] + data[1..5] + data[5..9] + data[9..13] + data[13..17] + [data[17]] + data[18..];
  }

  /** Which bytes of the wire hold which field, numbers with their most significant byte first. */
  lemma Layout(h: PacketHeader, p: Packet)
    requires h.Valid()
    ensures var b := h.Serialize(); |b| == 6 && b[..4] == h.userID && Value(b[4..6]) == h.timestamp
    ensures var b := p.Serialize();
      && |b| == 18 + |p.payload| && b[0] == p.kind && b[17] == p.flags && b[18..] == p.payload
      && Value(b[1..5]) == p.sessionID && Value(b[5..9]) == p.streamID
      && Value(b[9..13]) == p.sequence && Value(b[13..17]) == p.ackSeq
  {
    BigEndian(h.timestamp, p.sessionID);
    BigEndian(0, p.streamID);
    BigEndian(0, p.sequence);
    BigEndian(0, p.ackSeq);
    hide PutUint32, PutUint16, Value;
    assert h.Serialize()[4..6] == PutUint16(h.timestamp);
    var b := p.Serialize();
    assert b[1..5] == PutUint32(p.sessionID) && b[5..9] == PutUint32(p.streamID);
    assert b[9..13] == PutUint32(p.sequence) && b[13..17] == PutUint32(p.ackSeq);
  }

  // Connection requests

  const IPV4: byte := 1
  const DOMAIN: byte := 3
  const IPV6: byte := 4

  datatype ConnectError = PayloadTooShort | BadIPv4 | BadIPv6 | BadDomainLength | DomainIncomplete | UnknownAddrType

  /** The address is kept as the bytes on the wire, or the characters of a domain name. */
  datatype ConnectPayload = ConnectPayload(network: byte, addrType: byte, address: Bytes, port: uint16) {
    /** The type is known, and the address has the length that goes with it. */
    predicate WellFormed() {
      || (addrType == IPV4 && |address| == 4)
      || (addrType == IPV6 && |address| == 16)
      || (addrType == DOMAIN && 1 <= |address| <= 255)
    }

    /** IP addresses of the wrong length are written as zeros, and the length of a domain is cut to one byte. */
    function Serialize(): Bytes {
      [network, addrType] + AddressBytes() + PutUint16(port)
    }

    function AddressBytes(): Bytes {
      if addrType == IPV4 then (if |address| == 4 then address else [0, 0, 0, 0])
      else if addrType == IPV6 then (if |address| == 16 then address else seq(16, _ => 0))
      else if addrType == DOMAIN then [|address| % 256] + address
      else []
    }
  }

  /** The request at the start of data: where its address lies depends on its type. */
  function ConnectIn(data: Bytes): Result<ConnectPayload, ConnectError> {
    if |data| < 4 then Err(PayloadTooShort)
    else if data[1] == IPV4 then Fields(data, 2, 4, BadIPv4)
    else if data[1] == IPV6 then Fields(data, 2, 16, BadIPv6)
    else if data[1] != DOMAIN then Err(UnknownAddrType)
    else if data[2] == 0 then Err(BadDomainLength)
    else Fields(data, 3, data[2], DomainIncomplete)
  }

  /** An address of the given length at the given place, and the port after it. */
  function Fields(data: Bytes, at: nat, len: nat, e: ConnectError): Result<ConnectPayload, ConnectError>
    requires |data| >= 2
  {
    if |data| < at + len + 2 then Err(e)
    else Ok(ConnectPayload(data[0], data[1], data[at..at + len], GetUint16(data[at + len..at + len + 2])))
  }

  /** Reads a request, advancing an offset over the fields. */
  method ParseConnectPayload(data: Bytes) returns (r: Result<ConnectPayload, ConnectError>)
    ensures r == ConnectIn(data)
  {
    if |data| < 4 {
      return Err(PayloadTooShort);
    }
    var network, addrType := data[0], data[1];
    var offset := 2;
    var address: Bytes;
    if addrType == IPV4 {
      if |data| < offset + 4 + 2 {
        return Err(BadIPv4);
      }
      address := data[offset..offset + 4];
      offset := offset + 4;
    } else if addrType == IPV6 {
      if |data| < offset + 16 + 2 {
        return Err(BadIPv6);
      }
      address := data[offset..offset + 16];
      offset := offset + 16;
    } else if addrType == DOMAIN {
      var domainLen := data[offset] as int;
      offset := offset + 1;
      if domainLen == 0 {
        return Err(BadDomainLength);
      }
      if |data| < offset + domainLen + 2 {
        return Err(DomainIncomplete);
      }
      address := data[offset..offset + domainLen];
      offset := offset + domainLen;
    } else {
      return Err(UnknownAddrType);
    }
    return Ok(ConnectPayload(network, addrType, address, GetUint16(data[offset..offset + 2])));
  }

  lemma FieldsRead(head: Bytes, address: Bytes, port: uint16, rest: Bytes, e: ConnectError)
    requires |head| >= 2
    ensures Fields(head + address + PutUint16(port) + rest, |head|, |address|, e)
         == Ok(ConnectPayload(head[0], head[1], address, port))
  {
    var data := head + address + PutUint16(port) + rest;
    var at, len := |head|, |address|;
    assert data[at..at + len] == address;
    assert data[at + len..at + len + 2] == PutUint16(port);
    Uint16RoundTrip(port, [0, 0]);
  }

  lemma FieldsSound(data: Bytes, at: nat, len: nat, e: ConnectError)
    requires 2 <= at && |data| >= at + len + 2
    ensures var c := Fields(data, at, len, e).value;
      |c.address| == len && data[..at] + c.address + PutUint16(c.port) == data[..at + len + 2]
  {
    Uint16RoundTrip(0, data[at + len..at + len + 2]);
    hide GetUint16, PutUint16;
    assert data[..at + len + 2] == data[..at] + data[at..at + len] + data[at + len..at + len + 2];
  }

  lemma AddressSound(data: Bytes)
    requires ConnectIn(data).Ok? && data[1] != DOMAIN
    ensures var c := ConnectIn(data).value; c.WellFormed() && c.Serialize() <= data
  {
    var len, e := if data[1] == IPV4 then 4 else 16, if data[1] == IPV4 then BadIPv4 else BadIPv6;
    FieldsSound(data, 2, len, e);
    hide GetUint16, PutUint16;
    assert data[..2] == [data[0], data[1]];
  }

  lemma DomainSound(data: Bytes)
    requires ConnectIn(data).Ok? && data[1] == DOMAIN
    ensures var c := ConnectIn(data).value; c.WellFormed() && c.Serialize() <= data
  {
    var c := ConnectIn(data).value;
    FieldsSound(data, 3, data[2], DomainIncomplete);
    hide GetUint16, PutUint16;
    assert data[..3] == [data[0], data[1]] + [data[2]];
    assert c.AddressBytes() == [data[2]] + c.address;
    var port := PutUint16(c.port);
    assert [data[0], data[1]] + ([data[2]] + c.address) + port == [data[0], data[1]] + [data[2]] + c.address + port;
  }

  /** What is read is well-formed, and writing it gives the bytes that were read. */
  lemma ConnectSound(data: Bytes)
    requires ConnectIn(data).Ok?
    ensures var c := ConnectIn(data).value; c.WellFormed() && c.Serialize() <= data
  {
    if data[1] == DOMAIN {
      DomainSound(data);
    } else {
      AddressSound(data);
    }
  }

  lemma ConnectReads(c: ConnectPayload, rest: Bytes)
    requires c.WellFormed()
    ensures ConnectIn(c.Serialize() + rest) == Ok(c)
  {
    var data := c.Serialize() + rest;
    var head := if c.addrType == DOMAIN then [c.network, c.addrType, |c.address|] else [c.network, c.addrType];
    assert data == head + c.address + PutUint16(c.port) + rest;
    var e := if c.addrType == IPV4 then BadIPv4 else if c.addrType == IPV6 then BadIPv6 else DomainIncomplete;
    FieldsRead(head, c.address, c.port, rest, e);
    hide Fields, PutUint16;
  }

  /** The bytes of a request: network and type, the address with a byte for its length if it is a domain, and the port. */
  lemma ConnectLayout(c: ConnectPayload)
    ensures c.WellFormed() <==>
      || (c.addrType == 1 && |c.address| == 4) || (c.addrType == 4 && |c.address| == 16)
      || (c.addrType == 3 && 1 <= |c.address| <= 255)
    ensures c.WellFormed() ==>
      var b, at := c.Serialize(), if c.addrType == 3 then 3 else 2;
      && |b| == at + |c.address| + 2 && b[0] == c.network && b[1] == c.addrType && (at == 3 ==> b[2] as int == |c.address|)
      && b[at..at + |c.address|] == c.address && Value(b[at + |c.address|..]) == c.port
  {
    BigEndian(c.port, 0);
    hide PutUint16, Value;
    if c.WellFormed() {
      var b, at := c.Serialize(), if c.addrType == 3 then 3 else 2;
      assert b[at + |c.address|..] == PutUint16(c.port);
    }
  }

  /** A request survives being written and read, whatever follows it, exactly when it is well-formed. */
  lemma ConnectRoundTrip(c: ConnectPayload, rest: Bytes)
    ensures ConnectIn(c.Serialize() + rest) == Ok(c) <==> c.WellFormed()
  {
    var data := c.Serialize() + rest;
    if c.WellFormed() {
      ConnectReads(c, rest);
    } else if ConnectIn(data).Ok? {
      ConnectSound(data);
    }
  }
}
