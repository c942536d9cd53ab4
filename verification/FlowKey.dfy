/** Match keys and masks of flow entries (src/lib/flow.c, src/lib/ofl.h). */
module FlowKey {

  /** The fields of a match, in the order of the key structure. */
  datatype Field =
    | InPort | InPhyPort | Metadata | TunnelId | EthDst | EthSrc | EthType | VlanId | VlanPcp
    | IpDscp | IpEcn | IpProto | Ipv4Src | Ipv4Dst | TcpSrc | TcpDst | UdpSrc | UdpDst | SctpSrc | SctpDst
    | Icmpv4Type | Icmpv4Code | ArpOp | ArpSpa | ArpTpa | ArpSha | ArpTha | Ipv6Src | Ipv6Dst | Ipv6Flabel
    | Icmpv6Type | Icmpv6Code | Ipv6NdTarget | Ipv6NdSll | Ipv6NdTll | MplsLabel | MplsTc | MplsBos

  function Width(f: Field): nat {
    match f
    case InPort | InPhyPort | Ipv4Src | Ipv4Dst | ArpSpa | ArpTpa | Ipv6Flabel | MplsLabel => 32
    case Metadata | TunnelId => 64
    case EthDst | EthSrc | ArpSha | ArpTha | Ipv6NdSll | Ipv6NdTll => 48
    case EthType | VlanId | TcpSrc | TcpDst | UdpSrc | UdpDst | SctpSrc | SctpDst | ArpOp => 16
    case Ipv6Src | Ipv6Dst | Ipv6NdTarget => 128
    case _ => 8
  }

  /** One bit of one field. */
  type Bit = b: (Field, nat) | b.1 < Width(b.0) witness (InPort, 0)

  /** A key, a mask or the header values of a packet: the set of its one-bits. Two keys are equal
      when they agree in every field. */
  type Key = set<Bit>

  /** The key with every bit outside the mask cleared, field by field. */
  function ApplyMask(k: Key, m: Key): Key {
    k * m
  }

  /** A packet with header values `p` matches an entry with this key and mask. */
  predicate Matches(p: Key, k: Key, m: Key) {
    ApplyMask(p, m) == k
  }

  /** Every packet that the entry (k, m) matches is matched by the request (rk, rm). */
  ghost predicate Subsumes(rk: Key, rm: Key, k: Key, m: Key) {
    forall p: Key :: Matches(p, k, m) ==> Matches(p, rk, rm)
  }

  /** The test the table makes: the request's mask lies within the entry's mask, and the entry's key
      agrees with the request's on it. */
  predicate NonStrict(rk: Key, rm: Key, k: Key, m: Key) {
    ApplyMask(m, rm) == rm && ApplyMask(k, rm) == rk
  }

  /** On a canonical entry the test holds exactly when the request matches everything the entry does. */
  lemma NonStrictIffSubsumes(rk: Key, rm: Key, k: Key, m: Key)
    requires ApplyMask(k, m) == k
    ensures NonStrict(rk, rm, k, m) <==> Subsumes(rk, rm, k, m)
  {
    if NonStrict(rk, rm, k, m) {
      forall p: Key | Matches(p, k, m)
        ensures Matches(p, rk, rm)
      {
        assert p * rm == (p * m) * rm;
      }
    }
    if Subsumes(rk, rm, k, m) {
      // Set every bit the request tests outside the entry's mask: the entry still matches.
      var p := k + (rm - m);
      assert p * m == k;
      assert Matches(p, k, m) && Matches(k, k, m);
      assert k * rm == rk && p * rm == rk;
      forall b | b in rm
        ensures b in m
      {
        assert b in m || b in p * rm;
        assert b in p * rm <==> b in k * rm;
        assert b in k * rm ==> b in k * m;
      }
      assert m * rm == rm;
    }
  }
}
