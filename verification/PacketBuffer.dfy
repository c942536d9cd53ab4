/** Writing packets into a buffer and reading them back, field by field at a moving offset. */
module PacketBuffer {
  import opened Bytes
  import opened Sequences
  import opened PacketCodec

  /** Copies bytes into the buffer and moves the offset behind them. */
  method Append(buffer: array<Byte>, offset: nat, bytes: seq<Byte>) returns (next: nat)
    requires offset + |bytes| <= buffer.Length
    modifies buffer
    ensures next == offset + |bytes|
    ensures buffer[..next] == old(buffer[..offset]) + bytes
    ensures forall k :: next <= k < buffer.Length ==> buffer[k] == old(buffer[k])
  {
    var i := 0;
    while i < |bytes|
      invariant 0 <= i <= |bytes|
      invariant forall k :: 0 <= k < offset ==> buffer[k] == old(buffer[k])
      invariant forall k :: 0 <= k < i ==> buffer[offset + k] == bytes[k]
      invariant forall k :: offset + |bytes| <= k < buffer.Length ==> buffer[k] == old(buffer[k])
    {
      buffer[offset + i] := bytes[i];
      i := i + 1;
    }
    next := offset + |bytes|;
  }

  /** The transport header; returns the offset behind it. */
  method WriteTransport(h: Headers, buffer: array<Byte>, start: nat) returns (offset: nat)
    requires start + |Transport(h)| <= buffer.Length
    modifies buffer
    ensures offset == start + |Transport(h)|
    ensures buffer[..offset] == old(buffer[..start]) + Transport(h)
    ensures forall k :: offset <= k < buffer.Length ==> buffer[k] == old(buffer[k])
  {
    if h.ipProto == TCP {
      offset := Append(buffer, start, Encode(h.tcpSrc, 2) + Encode(h.tcpDst, 2) + Zeros(16));
    } else if h.ipProto == UDP {
      offset := Append(buffer, start, Encode(h.udpSrc, 2) + Encode(h.udpDst, 2) + Encode(8, 2) + Zeros(2));
    } else if h.ipProto == ICMPV4 {
      offset := WriteIcmp(h, buffer, start);
    } else if h.ipProto == ICMPV6 {
      offset := Append(buffer, start, [h.icmpv6Type, h.icmpv6Code] + Zeros(2));
    } else {
      offset := start;
    }
  }

  method WriteIcmp(h: Headers, buffer: array<Byte>, start: nat) returns (offset: nat)
    requires h.ipProto == ICMPV4 && start + |Transport(h)| <= buffer.Length
    modifies buffer
    ensures offset == start + |Transport(h)|
    ensures buffer[..offset] == old(buffer[..start]) + Transport(h)
    ensures forall k :: offset <= k < buffer.Length ==> buffer[k] == old(buffer[k])
  {
    ghost var before := buffer[..start];
    var front := [h.icmpType, h.icmpCode] + Zeros(2);
    offset := Append(buffer, start, front);
    if h.icmpType == 8 || h.icmpType == 0 {
      offset := Append(buffer, offset, Encode(h.flagsOrId, 2) + Encode(h.echoSeq, 2) + h.echoData);
      Regroup(before, front, Echo(h));
    } else {
      assert front + [] == front;
    }
  }

  /** Overwrites two bytes at `at` with a length. */
  method Patch(buffer: array<Byte>, at: nat, end: nat, length: nat)
    requires at + 2 <= end <= buffer.Length
    modifies buffer
    ensures buffer[..end] == old(buffer[..at]) + Encode(length, 2) + old(buffer[at + 2..end])
    ensures forall k :: end <= k < buffer.Length ==> buffer[k] == old(buffer[k])
  {
    var next := Append(buffer, at, Encode(length, 2));
    assert buffer[..end] == buffer[..at + 2] + buffer[at + 2..end];
    assert buffer[at + 2..end] == old(buffer[at + 2..end]);
  }

  /** A packet that differs from another in two bytes alone. */
  lemma Patched(b: seq<Byte>, c: seq<Byte>, at: nat)
    requires |b| == |c| && at + 2 <= |b| && b[..at] == c[..at] && b[at + 2..] == c[at + 2..]
    ensures b[..at] + c[at..at + 2] + b[at + 2..] == c
  {
  }

  lemma Ipv4Length(h: Headers, length: nat, t: seq<Byte>)
    ensures var b, c := Ethernet(h) + (Ipv4(h, 20) + t), Ethernet(h) + (Ipv4(h, length) + t);
            b[..16] == c[..16] && b[18..] == c[18..] && c[16..18] == Encode(length, 2)
  {
  }

  lemma Ipv6Length(h: Headers, length: nat, t: seq<Byte>)
    ensures var b, c := Ethernet(h) + (Ipv6(h, 0) + t), Ethernet(h) + (Ipv6(h, length) + t);
            b[..18] == c[..18] && b[20..] == c[20..] && c[18..20] == Encode(length, 2)
  {
  }

  /** The IPv4 and transport headers behind the Ethernet header; the length is filled in at the end. */
  method WriteIpv4(h: Headers, buffer: array<Byte>) returns (offset: nat)
    requires 34 + |Transport(h)| <= buffer.Length && buffer[..14] == Ethernet(h)
    modifies buffer
    ensures offset == 34 + |Transport(h)|
    ensures buffer[..offset] == Ethernet(h) + (Ipv4(h, 20 + |Transport(h)|) + Transport(h))
    ensures forall k :: offset <= k < buffer.Length ==> buffer[k] == old(buffer[k])
  {
    ghost var t := Transport(h);
    var start := Append(buffer, 14, Ipv4(h, 20));
    offset := WriteTransport(h, buffer, start);
    Regroup(Ethernet(h), Ipv4(h, 20), t);
    ghost var b := buffer[..offset];
    var length := 20 + (offset - start);
    Patch(buffer, 16, offset, length);
    Ipv4Length(h, length, t);
    Patched(b, Ethernet(h) + (Ipv4(h, length) + t), 16);
  }

  /** The same for IPv6, whose length leaves its own header out. */
  method WriteIpv6(h: Headers, buffer: array<Byte>) returns (offset: nat)
    requires 54 + |Transport(h)| <= buffer.Length && buffer[..14] == Ethernet(h)
    modifies buffer
    ensures offset == 54 + |Transport(h)|
    ensures buffer[..offset] == Ethernet(h) + (Ipv6(h, |Transport(h)|) + Transport(h))
    ensures forall k :: offset <= k < buffer.Length ==> buffer[k] == old(buffer[k])
  {
    ghost var t := Transport(h);
    var start := Append(buffer, 14, Ipv6(h, 0));
    offset := WriteTransport(h, buffer, start);
    Regroup(Ethernet(h), Ipv6(h, 0), t);
    ghost var b := buffer[..offset];
    var length := offset - start;
    Patch(buffer, 18, offset, length);
    Ipv6Length(h, length, t);
    Patched(b, Ethernet(h) + (Ipv6(h, length) + t), 18);
  }

  /** Writes the packet of a flow at the front of the buffer and returns its length. */
  method NetflowToPkt(h: Headers, buffer: array<Byte>) returns (offset: nat)
    requires |Packet(h)| <= buffer.Length
    modifies buffer
    ensures offset == |Packet(h)| && buffer[..offset] == Packet(h)
    ensures forall k :: offset <= k < buffer.Length ==> buffer[k] == old(buffer[k])
  {
    offset := Append(buffer, 0, h.ethDst + h.ethSrc + Encode(h.ethType, 2));
    assert buffer[..14] == Ethernet(h);
    if h.ethType == ETH_TYPE_LLDP {
      offset := Append(buffer, offset, h.payload);
      return;
    }
    if h.ethType == ETH_TYPE_ARP {
      offset := Append(buffer, offset, Arp(h));
      return;
    }
    if h.ethType == ETH_TYPE_IP {
      offset := WriteIpv4(h, buffer);
    }
    if h.ethType == ETH_TYPE_IPV6 {
      offset := WriteIpv6(h, buffer);
    }
  }

  // ----- Reading at an offset -----

  lemma ShiftedShort(b: seq<Byte>, k: nat, i: nat)
    requires k + i + 2 <= |b|
    ensures Short2(b[k..], i) == Short2(b, k + i)
  {
    assert b[k..][i..i + 2] == b[k + i..k + i + 2];
  }

  lemma ShiftedWord(b: seq<Byte>, k: nat, i: nat)
    requires k + i + 4 <= |b|
    ensures Word4(b[k..], i) == Word4(b, k + i)
  {
    assert b[k..][i..i + 4] == b[k + i..k + i + 4];
  }

  method TakeTransport(b: seq<Byte>, offset: nat, h: Headers) returns (r: Headers)
    requires offset <= |b|
    ensures r == ReadTransport(b[offset..], h)
  {
    r := h;
    if r.ipProto == UDP {
      if |b| < offset + 8 {
        return;
      }
      ShiftedShort(b, offset, 0);
      ShiftedShort(b, offset, 2);
      r := r.(udpSrc := Short2(b, offset), udpDst := Short2(b, offset + 2));
    } else if r.ipProto == TCP {
      if |b| < offset + 20 {
        return;
      }
      ShiftedShort(b, offset, 0);
      ShiftedShort(b, offset, 2);
      ShiftedShort(b, offset, 12);
      r := r.(tcpSrc := Short2(b, offset), tcpDst := Short2(b, offset + 2), flagsOrId := Short2(b, offset + 12));
    } else if r.ipProto == ICMPV4 {
      if |b| < offset + 4 {
        return;
      }
      r := r.(icmpType := b[offset], icmpCode := b[offset + 1]);
      if r.icmpType == 8 || r.icmpType == 0 {
        if |b| < offset + 56 {
          return;
        }
        ShiftedShort(b, offset, 4);
        ShiftedShort(b, offset, 6);
        assert b[offset..][8..56] == b[offset + 8..offset + 56];
        r := r.(flagsOrId := Short2(b, offset + 4), echoSeq := Short2(b, offset + 6),
                echoData := b[offset + 8..offset + 56]);
      }
    }
  }

  method TakeArp(b: seq<Byte>, offset: nat, h: Headers) returns (r: Headers)
    requires offset <= |b|
    ensures r == ReadArp(b[offset..], h)
  {
    r := h;
    if |b| < offset + 28 {
      return;
    }
    ShiftedShort(b, offset, 0);
    ShiftedShort(b, offset, 2);
    ShiftedShort(b, offset, 6);
    if Short2(b, offset) == 1 && Short2(b, offset + 2) == ETH_TYPE_IP && b[offset + 4] == 6 && b[offset + 5] == 4 {
      var op := Short2(b, offset + 6);
      if op <= 0xff {
        r := r.(arpOp := op);
      }
      if op == 1 || op == 2 {
        ShiftedWord(b, offset, 14);
        ShiftedWord(b, offset, 24);
        assert b[offset..][8..14] == b[offset + 8..offset + 14];
        assert b[offset..][18..24] == b[offset + 18..offset + 24];
        r := r.(arpSpa := Word4(b, offset + 14), arpTpa := Word4(b, offset + 24),
                arpSha := b[offset + 8..offset + 14], arpTha := b[offset + 18..offset + 24]);
      }
    }
  }

  method TakeIpv4(b: seq<Byte>, offset: nat, h: Headers) returns (r: Headers, fragment: bool)
    requires offset + 20 <= |b|
    ensures r == ReadIpv4(b[offset..], h) && fragment == IsFragment(b[offset..])
  {
    ShiftedWord(b, offset, 12);
    ShiftedWord(b, offset, 16);
    ShiftedShort(b, offset, 6);
    r := h.(ipv4Src := Word4(b, offset + 12), ipv4Dst := Word4(b, offset + 16), ipProto := b[offset + 9]);
    r := r.(ipEcn := b[offset + 1] % 4, ipDscp := b[offset + 1] / 4);
    fragment := Short2(b, offset + 6) % 0x4000 != 0;
  }

  /** Reads a packet into a flow. */
  method PktToNetflow(b: seq<Byte>, h: Headers) returns (r: Headers)
    requires |b| >= 14 && Short2(b, 12) !in TAG_TYPES
    ensures r == Read(b, h)
  {
    r := h.(ethType := Short2(b, 12), ethSrc := b[6..12], ethDst := b[0..6]);
    var offset := 14;
    if r.ethType == ETH_TYPE_LLDP {
      var length := (|b| - offset) % 0x1_0000;
      assert b[offset..][..length] == b[offset..offset + length];
      r := r.(payload := b[offset..offset + length]);
      return;
    }
    if r.ethType == ETH_TYPE_ARP {
      r := TakeArp(b, offset, r);
      return;
    } else if r.ethType == ETH_TYPE_IP {
      if |b| < offset + 20 {
        return;
      }
      var fragment;
      r, fragment := TakeIpv4(b, offset, r);
      assert b[offset..][20..] == b[offset + 20..];
      offset := offset + 20;
      if fragment {
        return;
      }
    }
    r := TakeTransport(b, offset, r);
  }
}
