/** Packet headers as bytes (src/lib/netflow.c, src/lib/packets.h): untagged Ethernet frames with LLDP, ARP,
    IPv4 or IPv6 inside. */
module PacketCodec {
  import opened Bytes

  type Mac = b: seq<Byte> | |b| == 6 witness [0, 0, 0, 0, 0, 0]

  type EchoData = b: seq<Byte> | |b| == 48 witness seq(48, _ => 0)

  type Ipv6Address = b: seq<Byte> | |b| == 16 witness seq(16, _ => 0)

  type Payload = b: seq<Byte> | |b| < 0x1_0000

  /** The header fields of a flow. The TCP flags and the echo identifier share their storage. */
  datatype Headers = Headers(
    ethDst: Mac, ethSrc: Mac, ethType: Short, payload: Payload,
    arpOp: Short, arpSha: Mac, arpSpa: Word, arpTha: Mac, arpTpa: Word,
    ipDscp: Byte, ipEcn: Byte, ipProto: Byte, ipv4Src: Word, ipv4Dst: Word,
    ipv6Src: Ipv6Address, ipv6Dst: Ipv6Address,
    tcpSrc: Short, tcpDst: Short, udpSrc: Short, udpDst: Short,
    icmpType: Byte, icmpCode: Byte, icmpv6Type: Byte, icmpv6Code: Byte,
    flagsOrId: Short, echoSeq: Short, echoData: EchoData)

  const ETH_TYPE_IP := 0x0800
  const ETH_TYPE_ARP := 0x0806
  const ETH_TYPE_LLDP := 0x88cc
  const ETH_TYPE_IPV6 := 0x86dd
  const TAG_TYPES := {0x8100, 0x88a8, 0x8847, 0x8848}
  const ICMPV4 := 1
  const TCP := 6
  const UDP := 17
  const ICMPV6 := 58

  // ----- Writing -----

  /** The bitwise or of two numbers. */
  function Or(a: nat, b: nat): nat
    decreases a + b
  {
    if a == 0 && b == 0 then 0 else 2 * Or(a / 2, b / 2) + (if a % 2 == 1 || b % 2 == 1 then 1 else 0)
  }

  /** The type-of-service byte: the DSCP shifted by one bit, and the ECN. */
  function Tos(dscp: Byte, ecn: Byte): Byte {
    Or(2 * dscp, ecn) % 256
  }

  function Ethernet(h: Headers): (b: seq<Byte>)
    ensures |b| == 14
  {
    h.ethDst + h.ethSrc + Encode(h.ethType, 2)
  }

  function Arp(h: Headers): (b: seq<Byte>)
    ensures |b| == 28
  {
    Encode(1, 2) + Encode(ETH_TYPE_IP, 2) + [6, 4] + Encode(h.arpOp, 2)
    + h.arpSha + Encode(h.arpSpa, 4) + h.arpTha + Encode(h.arpTpa, 4)
  }

  function Ipv4(h: Headers, length: nat): (b: seq<Byte>)
    ensures |b| == 20
  {
    [0x45, Tos(h.ipDscp, h.ipEcn)] + Encode(length, 2) + Zeros(5) + [h.ipProto] + Zeros(2)
    + Encode(h.ipv4Src, 4) + Encode(h.ipv4Dst, 4)
  }

  function Ipv6(h: Headers, length: nat): (b: seq<Byte>)
    ensures |b| == 40
  {
    Zeros(4) + Encode(length, 2) + [h.ipProto, 0] + h.ipv6Src + h.ipv6Dst
  }

  predicate IsEcho(h: Headers) {
    h.icmpType == 0 || h.icmpType == 8
  }

  function Echo(h: Headers): (b: seq<Byte>)
    ensures |b| == 52
  {
    Encode(h.flagsOrId, 2) + Encode(h.echoSeq, 2) + h.echoData
  }

  function Transport(h: Headers): seq<Byte> {
    if h.ipProto == TCP then Encode(h.tcpSrc, 2) + Encode(h.tcpDst, 2) + Zeros(16)
    else if h.ipProto == UDP then Encode(h.udpSrc, 2) + Encode(h.udpDst, 2) + Encode(8, 2) + Zeros(2)
    else if h.ipProto == ICMPV4 then [h.icmpType, h.icmpCode] + Zeros(2) + (if IsEcho(h) then Echo(h) else [])
    else if h.ipProto == ICMPV6 then [h.icmpv6Type, h.icmpv6Code] + Zeros(2)
    else []
  }

  function Body(h: Headers): seq<Byte> {
    if h.ethType == ETH_TYPE_LLDP then h.payload
    else if h.ethType == ETH_TYPE_ARP then Arp(h)
    else if h.ethType == ETH_TYPE_IP then Ipv4(h, 20 + |Transport(h)|) + Transport(h)
    else if h.ethType == ETH_TYPE_IPV6 then Ipv6(h, |Transport(h)|) + Transport(h)
    else []
  }

  function Packet(h: Headers): seq<Byte> {
    Ethernet(h) + Body(h)
  }

  // ----- Reading -----

  function ReadEthernet(b: seq<Byte>, h: Headers): Headers
    requires |b| >= 14
  {
    h.(ethDst := b[0..6], ethSrc := b[6..12], ethType := Short2(b, 12))
  }

  /** The ARP header at the front of `b`, if it is complete. */
  function ReadArp(b: seq<Byte>, h: Headers): Headers {
    if |b| < 28 || Short2(b, 0) != 1 || Short2(b, 2) != ETH_TYPE_IP || b[4] != 6 || b[5] != 4 then h
    else
      var op := Short2(b, 6);
      var h1 := if op <= 0xff then h.(arpOp := op) else h;
      if op == 1 || op == 2 then
        h1.(arpSha := b[8..14], arpSpa := Word4(b, 14), arpTha := b[18..24], arpTpa := Word4(b, 24))
      else h1
  }

  /** The IPv4 header at the front of `b`. */
  function ReadIpv4(b: seq<Byte>, h: Headers): Headers
    requires |b| >= 20
  {
    h.(ipv4Src := Word4(b, 12), ipv4Dst := Word4(b, 16), ipProto := b[9], ipEcn := b[1] % 4, ipDscp := b[1] / 4)
  }

  predicate IsFragment(b: seq<Byte>)
    requires |b| >= 20
  {
    Short2(b, 6) % 0x4000 != 0
  }

  /** The transport header at the front of `b`, by the flow's protocol, as far as it is complete. */
  function ReadTransport(b: seq<Byte>, h: Headers): Headers {
    if h.ipProto == UDP then
      if |b| < 8 then h else h.(udpSrc := Short2(b, 0), udpDst := Short2(b, 2))
    else if h.ipProto == TCP then
      if |b| < 20 then h else h.(tcpSrc := Short2(b, 0), tcpDst := Short2(b, 2), flagsOrId := Short2(b, 12))
    else if h.ipProto == ICMPV4 then
      if |b| < 4 then h
      else
        var h1 := h.(icmpCode := b[1], icmpType := b[0]);
        if IsEcho(h1) && |b| >= 56 then
          h1.(flagsOrId := Short2(b, 4), echoSeq := Short2(b, 6), echoData := b[8..56])
        else h1
    else h
  }

  function ReadBody(b: seq<Byte>, h: Headers): Headers {
    if h.ethType == ETH_TYPE_LLDP then h.(payload := b[..|b| % 0x1_0000])
    else if h.ethType == ETH_TYPE_ARP then ReadArp(b, h)
    else if h.ethType == ETH_TYPE_IP then
      if |b| < 20 then h
      else if IsFragment(b) then ReadIpv4(b, h)
      else ReadTransport(b[20..], ReadIpv4(b, h))
    else ReadTransport(b, h)
  }

  /** The fields of a flow after a frame is read into it. */
  function Read(b: seq<Byte>, h: Headers): Headers
    requires |b| >= 14 && Short2(b, 12) !in TAG_TYPES
  {
    ReadBody(b[14..], ReadEthernet(b, h))
  }

  // ----- Round trips, header by header -----

  lemma EthernetReads(h: Headers, body: seq<Byte>, h0: Headers)
    ensures var b := Ethernet(h) + body;
            && b[14..] == body && Short2(b, 12) == h.ethType
            && ReadEthernet(b, h0) == h0.(ethDst := h.ethDst, ethSrc := h.ethSrc, ethType := h.ethType)
  {
    var b := Ethernet(h) + body;
    assert b[0..6] == h.ethDst && b[6..12] == h.ethSrc && b[12..14] == Encode(h.ethType, 2);
    Short2Reads(b, 12, h.ethType);
  }

  lemma ArpFront(h: Headers)
    ensures var b := Arp(h);
            && b[0..2] == Encode(1, 2) && b[2..4] == Encode(ETH_TYPE_IP, 2) && b[4] == 6 && b[5] == 4
            && b[6..8] == Encode(h.arpOp, 2)
  {
  }

  lemma ArpSender(h: Headers)
    ensures Arp(h)[8..14] == h.arpSha && Arp(h)[14..18] == Encode(h.arpSpa, 4)
  {
  }

  lemma ArpTarget(h: Headers)
    ensures Arp(h)[18..24] == h.arpTha && Arp(h)[24..28] == Encode(h.arpTpa, 4)
  {
  }

  lemma ArpNumbers(h: Headers)
    ensures var b := Arp(h);
            && Short2(b, 0) == 1 && Short2(b, 2) == ETH_TYPE_IP && Short2(b, 6) == h.arpOp
            && Word4(b, 14) == h.arpSpa && Word4(b, 24) == h.arpTpa
  {
    var b := Arp(h);
    ArpFront(h);
    ArpSender(h);
    ArpTarget(h);
    Short2Reads(b, 0, 1);
    Short2Reads(b, 2, ETH_TYPE_IP);
    Short2Reads(b, 6, h.arpOp);
    Word4Reads(b, 14, h.arpSpa);
    Word4Reads(b, 24, h.arpTpa);
  }

  lemma ArpReads(h: Headers, h1: Headers)
    requires h.arpOp == 1 || h.arpOp == 2
    ensures ReadArp(Arp(h), h1) ==
            h1.(arpOp := h.arpOp, arpSha := h.arpSha, arpSpa := h.arpSpa, arpTha := h.arpTha, arpTpa := h.arpTpa)
  {
    ArpFront(h);
    ArpSender(h);
    ArpTarget(h);
    ArpNumbers(h);
  }

  lemma Ipv4Slices(h: Headers, length: nat, rest: seq<Byte>)
    ensures var b := Ipv4(h, length) + rest;
            && b[1] == Tos(h.ipDscp, h.ipEcn) && b[6..8] == Zeros(2) && b[9] == h.ipProto
            && b[12..16] == Encode(h.ipv4Src, 4) && b[16..20] == Encode(h.ipv4Dst, 4) && b[20..] == rest
  {
  }

  lemma Ipv4Reads(h: Headers, length: nat, rest: seq<Byte>, h1: Headers)
    ensures var b, tos := Ipv4(h, length) + rest, Tos(h.ipDscp, h.ipEcn);
            && !IsFragment(b) && b[20..] == rest
            && ReadIpv4(b, h1) == h1.(ipv4Src := h.ipv4Src, ipv4Dst := h.ipv4Dst, ipProto := h.ipProto,
                                      ipEcn := tos % 4, ipDscp := tos / 4)
  {
    var b := Ipv4(h, length) + rest;
    Ipv4Slices(h, length, rest);
    assert Zeros(2) == Encode(0, 2);
    Short2Reads(b, 6, 0);
    Word4Reads(b, 12, h.ipv4Src);
    Word4Reads(b, 16, h.ipv4Dst);
  }

  lemma TcpReads(h: Headers, h1: Headers)
    requires h.ipProto == h1.ipProto == TCP
    ensures ReadTransport(Transport(h), h1) == h1.(tcpSrc := h.tcpSrc, tcpDst := h.tcpDst, flagsOrId := 0)
  {
    var b := Transport(h);
    assert b[0..2] == Encode(h.tcpSrc, 2) && b[2..4] == Encode(h.tcpDst, 2) && b[12..14] == Encode(0, 2);
    Short2Reads(b, 0, h.tcpSrc);
    Short2Reads(b, 2, h.tcpDst);
    Short2Reads(b, 12, 0);
  }

  lemma UdpReads(h: Headers, h1: Headers)
    requires h.ipProto == h1.ipProto == UDP
    ensures ReadTransport(Transport(h), h1) == h1.(udpSrc := h.udpSrc, udpDst := h.udpDst)
  {
    var b := Transport(h);
    assert b[0..2] == Encode(h.udpSrc, 2) && b[2..4] == Encode(h.udpDst, 2);
    Short2Reads(b, 0, h.udpSrc);
    Short2Reads(b, 2, h.udpDst);
  }

  lemma EchoSlices(h: Headers, front: seq<Byte>)
    requires |front| == 4
    ensures var b := front + Echo(h);
            b[4..6] == Encode(h.flagsOrId, 2) && b[6..8] == Encode(h.echoSeq, 2) && b[8..56] == h.echoData
  {
  }

  lemma IcmpReads(h: Headers, h1: Headers)
    requires h.ipProto == h1.ipProto == ICMPV4
    ensures ReadTransport(Transport(h), h1) ==
            if IsEcho(h) then
              h1.(icmpType := h.icmpType, icmpCode := h.icmpCode, flagsOrId := h.flagsOrId, echoSeq := h.echoSeq,
                  echoData := h.echoData)
            else h1.(icmpType := h.icmpType, icmpCode := h.icmpCode)
  {
    var b := Transport(h);
    if IsEcho(h) {
      EchoSlices(h, [h.icmpType, h.icmpCode] + Zeros(2));
      Short2Reads(b, 4, h.flagsOrId);
      Short2Reads(b, 6, h.echoSeq);
    }
  }

  // ----- The type of service -----

  lemma {:induction false} OrIsSmall(a: nat, b: nat)
    ensures Or(a, b) <= a + b
    ensures Or(0, b) == b
    decreases a + b
  {
    if a != 0 || b != 0 {
      OrIsSmall(a / 2, b / 2);
    }
  }

  /** Reading gives the DSCP and the ECN back exactly when the DSCP is zero and the ECN has two bits:
      they are written one bit closer than they are read. */
  lemma TosIff(dscp: Byte, ecn: Byte)
    ensures Tos(dscp, ecn) / 4 == dscp && Tos(dscp, ecn) % 4 == ecn <==> dscp == 0 && ecn < 4
  {
    OrIsSmall(2 * dscp, ecn);
    OneBitCloser(Or(2 * dscp, ecn), dscp, ecn);
  }

  lemma OneBitCloser(tos: nat, dscp: Byte, ecn: Byte)
    requires tos <= 2 * dscp + ecn && (dscp == 0 ==> tos == ecn)
    ensures tos % 256 / 4 == dscp && tos % 256 % 4 == ecn <==> dscp == 0 && ecn < 4
  {
    assert tos % 256 <= tos;
  }

  // ----- Round trips of whole packets -----

  /** The packets that carry all the fields of their kind. */
  predicate Carried(h: Headers) {
    || h.ethType == ETH_TYPE_LLDP
    || (h.ethType == ETH_TYPE_ARP && (h.arpOp == 1 || h.arpOp == 2))
    || (h.ethType == ETH_TYPE_IP && (h.ipProto == TCP || h.ipProto == UDP || h.ipProto == ICMPV4))
  }

  function RestoredTransport(h0: Headers, h: Headers, flags: Short): Headers {
    if h.ipProto == TCP then h0.(tcpSrc := h.tcpSrc, tcpDst := h.tcpDst, flagsOrId := flags)
    else if h.ipProto == UDP then h0.(udpSrc := h.udpSrc, udpDst := h.udpDst)
    else if IsEcho(h) then
      h0.(icmpType := h.icmpType, icmpCode := h.icmpCode, flagsOrId := h.flagsOrId, echoSeq := h.echoSeq,
          echoData := h.echoData)
    else h0.(icmpType := h.icmpType, icmpCode := h.icmpCode)
  }

  /** The flow `h0` with the fields that a packet of `h` carries, and the given DSCP, ECN and TCP flags. */
  function RestoredWith(h0: Headers, h: Headers, dscp: Byte, ecn: Byte, flags: Short): Headers {
    var h1 := h0.(ethDst := h.ethDst, ethSrc := h.ethSrc, ethType := h.ethType);
    if h.ethType == ETH_TYPE_LLDP then h1.(payload := h.payload)
    else if h.ethType == ETH_TYPE_ARP then
      h1.(arpOp := h.arpOp, arpSha := h.arpSha, arpSpa := h.arpSpa, arpTha := h.arpTha, arpTpa := h.arpTpa)
    else
      RestoredTransport(h1.(ipv4Src := h.ipv4Src, ipv4Dst := h.ipv4Dst, ipProto := h.ipProto, ipEcn := ecn,
                            ipDscp := dscp), h, flags)
  }

  function Restored(h0: Headers, h: Headers): Headers {
    RestoredWith(h0, h, h.ipDscp, h.ipEcn, h.flagsOrId)
  }

  lemma TransportReads(h: Headers, h1: Headers)
    requires h.ipProto == TCP || h.ipProto == UDP || h.ipProto == ICMPV4
    requires h1.ipProto == h.ipProto
    ensures ReadTransport(Transport(h), h1) == RestoredTransport(h1, h, 0)
  {
    if h.ipProto == TCP {
      TcpReads(h, h1);
    } else if h.ipProto == UDP {
      UdpReads(h, h1);
    } else {
      IcmpReads(h, h1);
    }
  }

  lemma PacketReads(h: Headers, h0: Headers)
    requires Carried(h)
    ensures |Packet(h)| >= 14 && Short2(Packet(h), 12) == h.ethType
    ensures var tos := Tos(h.ipDscp, h.ipEcn); Read(Packet(h), h0) == RestoredWith(h0, h, tos / 4, tos % 4, 0)
  {
    var h1 := h0.(ethDst := h.ethDst, ethSrc := h.ethSrc, ethType := h.ethType);
    EthernetReads(h, Body(h), h0);
    if h.ethType == ETH_TYPE_ARP {
      ArpReads(h, h1);
    } else if h.ethType == ETH_TYPE_IP {
      var length := 20 + |Transport(h)|;
      Ipv4Reads(h, length, Transport(h), h1);
      TransportReads(h, ReadIpv4(Body(h), h1));
    }
  }

  lemma RestoredWithIff(h0: Headers, h: Headers, dscp: Byte, ecn: Byte, flags: Short)
    requires h.ethType == ETH_TYPE_IP
    ensures RestoredWith(h0, h, dscp, ecn, flags) == Restored(h0, h) <==>
            dscp == h.ipDscp && ecn == h.ipEcn && (h.ipProto == TCP ==> flags == h.flagsOrId)
  {
    var r := RestoredWith(h0, h, dscp, ecn, flags);
    assert r.ipDscp == dscp && r.ipEcn == ecn && (h.ipProto == TCP ==> r.flagsOrId == flags);
  }

  /** The flows whose packets come back whole: without an IPv4 header, or with DSCP zero, a two-bit ECN and
      no TCP flags. */
  predicate Survives(h: Headers) {
    h.ethType == ETH_TYPE_IP ==> h.ipDscp == 0 && h.ipEcn < 4 && (h.ipProto == TCP ==> h.flagsOrId == 0)
  }

  /** Reading a written packet restores every field it carries and changes no other, exactly for these. */
  lemma WriteThenReadIff(h: Headers, h0: Headers)
    requires Carried(h)
    ensures |Packet(h)| >= 14 && Short2(Packet(h), 12) == h.ethType
    ensures Read(Packet(h), h0) == Restored(h0, h) <==> Survives(h)
  {
    PacketReads(h, h0);
    if h.ethType == ETH_TYPE_IP {
      var tos := Tos(h.ipDscp, h.ipEcn);
      TosIff(h.ipDscp, h.ipEcn);
      RestoredWithIff(h0, h, tos / 4, tos % 4, 0);
    }
  }

  /** A TCP flow with the SYN flag is read back without it. */
  lemma FlagsAreLost(h: Headers, h0: Headers)
    requires h.ethType == ETH_TYPE_IP && h.ipProto == TCP && h.flagsOrId == 1
    ensures |Packet(h)| >= 14 && Short2(Packet(h), 12) == h.ethType
    ensures Read(Packet(h), h0).flagsOrId == 0
  {
    PacketReads(h, h0);
  }

  /** A flow with DSCP 46 is read back with DSCP 23. */
  lemma DscpIsHalved(h: Headers, h0: Headers)
    requires Carried(h) && h.ethType == ETH_TYPE_IP && h.ipDscp == 46 && h.ipEcn == 0
    ensures |Packet(h)| >= 14 && Short2(Packet(h), 12) == h.ethType
    ensures Read(Packet(h), h0).ipDscp == 23
  {
    PacketReads(h, h0);
    TosOfExpedited();
  }

  lemma TosOfExpedited()
    ensures Tos(46, 0) / 4 == 23
  {
    OrNothing(92);
  }

  lemma {:induction false} OrNothing(a: nat)
    ensures Or(a, 0) == a
  {
    if a > 0 {
      OrNothing(a / 2);
    }
  }

  /** IPv6 is written and not read: the flow keeps the addresses and the protocol it had. */
  lemma Ipv6NotRead(h: Headers, h0: Headers)
    requires h.ethType == ETH_TYPE_IPV6
    ensures |Packet(h)| >= 14 && Short2(Packet(h), 12) == h.ethType
    ensures var r := Read(Packet(h), h0);
            r.ipv6Src == h0.ipv6Src && r.ipv6Dst == h0.ipv6Dst && r.ipProto == h0.ipProto
  {
    EthernetReads(h, Body(h), h0);
  }

  // ----- Every byte is needed -----

  /** The fields of the last header of a packet of `h` are those of `h0`. */
  predicate LastUntouched(h: Headers, h0: Headers, r: Headers) {
    if h.ethType == ETH_TYPE_LLDP then r.payload != h.payload
    else if h.ethType == ETH_TYPE_ARP then
      r.arpOp == h0.arpOp && r.arpSha == h0.arpSha && r.arpSpa == h0.arpSpa && r.arpTha == h0.arpTha
      && r.arpTpa == h0.arpTpa
    else if h.ipProto == TCP then r.tcpSrc == h0.tcpSrc && r.tcpDst == h0.tcpDst
    else if h.ipProto == UDP then r.udpSrc == h0.udpSrc && r.udpDst == h0.udpDst
    else if IsEcho(h) then r.flagsOrId == h0.flagsOrId && r.echoSeq == h0.echoSeq && r.echoData == h0.echoData
    else r.icmpType == h0.icmpType && r.icmpCode == h0.icmpCode
  }

  lemma ShortTransport(h: Headers, h1: Headers, n: nat)
    requires h.ethType == ETH_TYPE_IP && Carried(h) && n < |Transport(h)| && h1.ipProto == h.ipProto
    ensures LastUntouched(h, h1, ReadTransport(Transport(h)[..n], h1))
  {
  }

  /** A shorter packet leaves the last header unread: the length written is exactly what reading needs. */
  lemma EveryByteIsNeeded(h: Headers, h0: Headers, n: nat)
    requires Carried(h) && 14 <= n < |Packet(h)|
    ensures Short2(Packet(h)[..n], 12) == h.ethType
    ensures LastUntouched(h, h0, Read(Packet(h)[..n], h0))
  {
    var m, h1 := n - 14, h0.(ethDst := h.ethDst, ethSrc := h.ethSrc, ethType := h.ethType);
    assert Packet(h)[..n] == Ethernet(h) + Body(h)[..m];
    EthernetReads(h, Body(h)[..m], h0);
    if h.ethType == ETH_TYPE_IP && m >= 20 {
      var length := 20 + |Transport(h)|;
      assert Body(h)[..m] == Ipv4(h, length) + Transport(h)[..m - 20];
      Ipv4Reads(h, length, Transport(h)[..m - 20], h1);
      ShortTransport(h, ReadIpv4(Body(h)[..m], h1), m - 20);
    }
  }
}
