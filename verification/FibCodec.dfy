/** The forwarding-table message (horse/msg.py): header, entries of address, mask and next hop, padding. */
module FibCodec {
  import opened Arithmetic
  import opened Bytes

  datatype Result<T> = Ok(value: T) | Err

  datatype Route = Route(ip: Word, length: nat, nextHop: Word)

  datatype Fib = Fib(routerId: Word, routes: seq<Route>)

  // ----- Masks -----

  function ShiftRight(n: nat, s: nat): nat {
    if s == 0 then n else ShiftRight(n / 2, s - 1)
  }

  function ShiftLeft(n: nat, s: nat): nat {
    if s == 0 then n else 2 * ShiftLeft(n, s - 1)
  }

  function CidrToNetmask(cidr: int): Result<nat> {
    if 0 <= cidr <= 32 then Ok(ShiftLeft(ShiftRight(0xFFFF_FFFF, 32 - cidr), 32 - cidr)) else Err
  }

  function BitCount(n: nat): nat {
    if n == 0 then 0 else n % 2 + BitCount(n / 2)
  }

  /** The number of `c` one bits. */
  function Ones(c: nat): nat {
    Power(c) - 1
  }

  lemma {:induction false} OnesShiftRight(c: nat, s: nat)
    requires s <= c
    ensures ShiftRight(Ones(c), s) == Ones(c - s)
  {
    if s > 0 {
      assert Ones(c) / 2 == Ones(c - 1);
      OnesShiftRight(c - 1, s - 1);
    }
  }

  lemma {:induction false} ShiftLeftFits(n: nat, c: nat, s: nat)
    requires n < Power(c)
    ensures ShiftLeft(n, s) < Power(c + s)
  {
    if s > 0 {
      ShiftLeftFits(n, c, s - 1);
    }
  }

  lemma {:induction false} BitCountOfOnes(c: nat)
    ensures BitCount(Ones(c)) == c
  {
    if c > 0 {
      BitCountOfOnes(c - 1);
      assert Ones(c) / 2 == Ones(c - 1);
    }
  }

  lemma {:induction false} BitCountOfShifted(n: nat, s: nat)
    ensures BitCount(ShiftLeft(n, s)) == BitCount(n)
  {
    if s > 0 {
      BitCountOfShifted(n, s - 1);
    }
  }

  /** A mask is its ones above its zeros, and its bit count is its length. */
  lemma NetmaskIs(c: nat)
    requires c <= 32
    ensures CidrToNetmask(c) == Ok(ShiftLeft(Ones(c), 32 - c))
    ensures BitCount(CidrToNetmask(c).value) == c
    ensures CidrToNetmask(c).value < 0x1_0000_0000
  {
    PowerOfWord();
    OnesShiftRight(32, 32 - c);
    BitCountOfOnes(c);
    BitCountOfShifted(Ones(c), 32 - c);
    ShiftLeftFits(Ones(c), c, 32 - c);
  }

  /** What the decoder asks of a mask. */
  predicate MaskAccepted(mask: nat) {
    CidrToNetmask(BitCount(mask)) == Ok(mask)
  }

  /** The decoder accepts exactly the masks of prefixes. */
  lemma MaskAcceptedIff(mask: nat)
    ensures MaskAccepted(mask) <==> exists c: int :: CidrToNetmask(c) == Ok(mask)
  {
    if c: int :| CidrToNetmask(c) == Ok(mask) {
      NetmaskIs(c);
    }
  }

  // ----- Sizes -----

  const HEADER_LEN := 8
  const ENTRY_LEN := 12
  const ALIGNMENT := 8
  const MAX_MESSAGE_SIZE := 0xFFFF
  const BGP_FIB := 1

  function WireSize(size: int): Result<nat> {
    if HEADER_LEN <= size <= MAX_MESSAGE_SIZE then Ok((size + ALIGNMENT - 1) / ALIGNMENT * ALIGNMENT) else Err
  }

  /** The wire size is the least multiple of the alignment that holds the message. */
  lemma WireSizeIsLeast(size: int)
    ensures WireSize(size).Ok? <==> 8 <= size <= 65535
    ensures WireSize(size).Ok? ==>
              && WireSize(size).value % 8 == 0 && size <= WireSize(size).value
              && forall n :: n % 8 == 0 && size <= n ==> WireSize(size).value <= n
  {
    if WireSize(size).Ok? {
      forall n | n % 8 == 0 && size <= n
        ensures WireSize(size).value <= n
      {
        assert n == 8 * (n / 8);
      }
    }
  }

  // ----- Packing -----

  function Header(kind: nat, size: nat, routerId: nat): (b: seq<Byte>)
    ensures |b| == 8
  {
    Encode(kind, 2) + Encode(size, 2) + Encode(routerId, 4)
  }

  function EntryBytes(ip: nat, mask: nat, nextHop: nat): (b: seq<Byte>)
    ensures |b| == 12
  {
    Encode(ip, 4) + Encode(mask, 4) + Encode(nextHop, 4)
  }

  predicate LengthsOk(routes: seq<Route>) {
    forall r :: r in routes ==> r.length <= 32
  }

  predicate RoutesFit(routes: seq<Route>) {
    8 + 12 * |routes| <= 65535 && LengthsOk(routes)
  }

  function RouteBytes(r: Route): (b: seq<Byte>)
    requires r.length <= 32
    ensures |b| == 12
  {
    EntryBytes(r.ip, CidrToNetmask(r.length).value, r.nextHop)
  }

  function Payload(routes: seq<Route>): (b: seq<Byte>)
    requires LengthsOk(routes)
    ensures |b| == 12 * |routes|
  {
    if routes == [] then [] else RouteBytes(routes[0]) + Payload(routes[1..])
  }

  /** A payload with the header in front and padding behind. */
  function Framed(routerId: nat, body: seq<Byte>): seq<Byte>
    requires 8 + |body| <= 65535
  {
    var size := 8 + |body|;
    Header(BGP_FIB, size, routerId) + body + Zeros(WireSize(size).value - size)
  }

  function Frame(f: Fib): Result<seq<Byte>> {
    if RoutesFit(f.routes) then Ok(Framed(f.routerId, Payload(f.routes))) else Err
  }

  // ----- Unpacking -----

  /** A complete entry, with a mask that is some prefix's. */
  function ParseEntry(b: seq<Byte>): Result<Route>
    requires |b| == 12
  {
    EncodeDecode(b[0..4]);
    EncodeDecode(b[8..12]);
    PowerOfWord();
    var mask := Decode(b[4..8]);
    if MaskAccepted(mask) then Ok(Route(Decode(b[0..4]), BitCount(mask), Decode(b[8..12]))) else Err
  }

  function ParseRoutes(b: seq<Byte>, n: nat): Result<seq<Route>>
    requires |b| == 12 * n
  {
    if n == 0 then Ok([]) else Prepended(ParseEntry(b[..12]), ParseRoutes(b[12..], n - 1))
  }

  function Prepended(first: Result<Route>, rest: Result<seq<Route>>): Result<seq<Route>> {
    if first.Ok? && rest.Ok? then Ok([first.value] + rest.value) else Err
  }

  /** The logical size of a frame whose header and length are those of a forwarding-table message. */
  function FrameSize(msg: seq<Byte>): Result<nat> {
    if |msg| < 8 then Err
    else
      var kind, size := Decode(msg[0..2]), Decode(msg[2..4]);
      if kind > 3 || WireSize(size).Err? || kind != BGP_FIB || |msg| != WireSize(size).value then Err
      else Ok(size)
  }

  function Parse(msg: seq<Byte>): Result<Fib> {
    var size := FrameSize(msg);
    if size.Err? || (size.value - 8) % 12 != 0 then Err
    else
      EncodeDecode(msg[4..8]);
      PowerOfWord();
      var routes := ParseRoutes(msg[8..size.value], (size.value - 8) / 12);
      if routes.Ok? then Ok(Fib(Decode(msg[4..8]), routes.value)) else Err
  }

  // ----- Round trips -----

  lemma EntryRoundTrip(r: Route)
    requires r.length <= 32
    ensures ParseEntry(RouteBytes(r)) == Ok(r)
  {
    var mask := CidrToNetmask(r.length).value;
    var b := RouteBytes(r);
    assert b[0..4] == Encode(r.ip, 4) && b[4..8] == Encode(mask, 4) && b[8..12] == Encode(r.nextHop, 4);
    PowerOfWord();
    NetmaskIs(r.length);
    DecodeEncode(r.ip, 4);
    DecodeEncode(mask, 4);
    DecodeEncode(r.nextHop, 4);
  }

  lemma {:induction false} PayloadRoundTrip(routes: seq<Route>)
    requires LengthsOk(routes)
    ensures ParseRoutes(Payload(routes), |routes|) == Ok(routes)
  {
    if routes != [] {
      var first, rest := RouteBytes(routes[0]), Payload(routes[1..]);
      PayloadRoundTrip(routes[1..]);
      EntryRoundTrip(routes[0]);
      assert (first + rest)[..12] == first && (first + rest)[12..] == rest;
      assert routes == [routes[0]] + routes[1..];
    }
  }

  lemma HeaderRoundTrip(kind: nat, size: nat, routerId: nat, rest: seq<Byte>)
    requires kind < 65536 && size < 65536 && routerId < 0x1_0000_0000
    ensures var b := Header(kind, size, routerId) + rest;
            Decode(b[0..2]) == kind && Decode(b[2..4]) == size && Decode(b[4..8]) == routerId
  {
    var b := Header(kind, size, routerId) + rest;
    assert b[0..2] == Encode(kind, 2) && b[2..4] == Encode(size, 2) && b[4..8] == Encode(routerId, 4);
    PowerOfWord();
    PowerOfShort();
    DecodeEncode(kind, 2);
    DecodeEncode(size, 2);
    DecodeEncode(routerId, 4);
  }

  /** A frame around a payload is taken apart again. */
  lemma FrameParts(id: Word, body: seq<Byte>)
    requires 8 + |body| <= 65535
    ensures var b, size := Framed(id, body), 8 + |body|;
            && FrameSize(b) == Ok(size) && WireSize(size) == Ok(|b|)
            && Decode(b[4..8]) == id && b[8..size] == body
  {
    var size := 8 + |body|;
    var rest := body + Zeros(WireSize(size).value - size);
    HeaderRoundTrip(BGP_FIB, size, id, rest);
    assert Header(BGP_FIB, size, id) + rest == Framed(id, body);
  }

  lemma ParseOf(msg: seq<Byte>, size: nat, routes: seq<Route>)
    requires FrameSize(msg) == Ok(size) && size == 8 + 12 * |routes|
    requires ParseRoutes(msg[8..size], |routes|) == Ok(routes)
    ensures Parse(msg).Ok? && Parse(msg).value.routerId == Decode(msg[4..8]) && Parse(msg).value.routes == routes
  {
    var k := |routes|;
    assert (12 * k) / 12 == k && (12 * k) % 12 == 0;
    assert size - 8 == 12 * k;
  }

  /** Packing succeeds exactly when the routes fit, and unpacking gives them back in order. */
  lemma PackThenUnpack(f: Fib)
    ensures Frame(f).Ok? <==> |f.routes| <= 5460 && forall r :: r in f.routes ==> r.length <= 32
    ensures Frame(f).Ok? ==> Parse(Frame(f).value) == Ok(f) && WireSize(8 + 12 * |f.routes|) == Ok(|Frame(f).value|)
  {
    if Frame(f).Ok? {
      var body := Payload(f.routes);
      PayloadRoundTrip(f.routes);
      FrameParts(f.routerId, body);
      ParseOf(Framed(f.routerId, body), 8 + |body|, f.routes);
    }
  }

  lemma ThreeWords(b: seq<Byte>)
    requires |b| == 12
    ensures b == b[0..4] + b[4..8] + b[8..12]
  {
  }

  lemma EntryReencodes(b: seq<Byte>)
    requires |b| == 12 && ParseEntry(b).Ok?
    ensures var r := ParseEntry(b).value;
            r.length <= 32 && RouteBytes(r) == b
  {
    EncodeDecode(b[0..4]);
    EncodeDecode(b[4..8]);
    EncodeDecode(b[8..12]);
    ThreeWords(b);
  }

  lemma PayloadFrom(r: Route, routes: seq<Route>)
    requires r.length <= 32 && LengthsOk(routes)
    ensures Payload([r] + routes) == RouteBytes(r) + Payload(routes)
  {
    assert ([r] + routes)[1..] == routes;
  }

  lemma ParsedHead(b: seq<Byte>, n: nat)
    requires n > 0 && |b| == 12 * n && ParseRoutes(b, n).Ok?
    ensures ParseEntry(b[..12]).Ok? && ParseRoutes(b[12..], n - 1).Ok?
    ensures ParseRoutes(b, n).value == [ParseEntry(b[..12]).value] + ParseRoutes(b[12..], n - 1).value
  {
  }

  lemma FirstEntry(b: seq<Byte>)
    requires |b| >= 12
    ensures b == b[..12] + b[12..]
  {
  }

  /** A payload made of a route's bytes and the bytes of others is theirs together. */
  lemma Rejoined(b: seq<Byte>, first: Route, rest: seq<Route>)
    requires |b| >= 12 && first.length <= 32 && LengthsOk(rest)
    requires RouteBytes(first) == b[..12] && Payload(rest) == b[12..]
    ensures LengthsOk([first] + rest) && Payload([first] + rest) == b
  {
    PayloadFrom(first, rest);
    FirstEntry(b);
  }

  lemma {:induction false} RoutesReencode(b: seq<Byte>, n: nat)
    requires |b| == 12 * n && ParseRoutes(b, n).Ok?
    ensures LengthsOk(ParseRoutes(b, n).value)
    ensures Payload(ParseRoutes(b, n).value) == b
  {
    if n > 0 {
      var front, back := b[..12], b[12..];
      ParsedHead(b, n);
      RoutesReencode(back, n - 1);
      var first, rest := ParseEntry(front).value, ParseRoutes(back, n - 1).value;
      assert first.length <= 32 && RouteBytes(first) == front by {
        EntryReencodes(front);
      }
      Rejoined(b, first, rest);
    }
  }

  lemma HeaderReencodes(b: seq<Byte>)
    requires |b| >= 8
    ensures Header(Decode(b[0..2]), Decode(b[2..4]), Decode(b[4..8])) == b[..8]
  {
    EncodeDecode(b[0..2]);
    EncodeDecode(b[2..4]);
    EncodeDecode(b[4..8]);
    assert b[..8] == b[0..2] + b[2..4] + b[4..8];
  }

  /** What an accepted frame consists of. */
  lemma ParsedFrame(msg: seq<Byte>)
    requires Parse(msg).Ok?
    ensures var f := Parse(msg).value; var size := 8 + 12 * |f.routes|;
            && FrameSize(msg) == Ok(size) && size <= |msg| && LengthsOk(f.routes)
            && Payload(f.routes) == msg[8..size] && Header(BGP_FIB, size, f.routerId) == msg[..8]
  {
    var size := FrameSize(msg).value;
    RoutesReencode(msg[8..size], (size - 8) / 12);
    HeaderReencodes(msg);
  }

  /** An accepted frame packs again to itself, up to what its padding holds. */
  lemma UnpackThenPack(msg: seq<Byte>)
    requires Parse(msg).Ok?
    ensures Frame(Parse(msg).value).Ok?
    ensures var b, size := Frame(Parse(msg).value).value, 8 + 12 * |Parse(msg).value.routes|;
            |b| == |msg| && size <= |b| < size + 8 && b[..size] == msg[..size]
  {
    var f := Parse(msg).value;
    var size := 8 + 12 * |f.routes|;
    ParsedFrame(msg);
    PrefixOfFrame(f.routerId, msg[8..size], msg[..8]);
    SplitAt(msg, size);
  }

  lemma SplitAt(msg: seq<Byte>, size: nat)
    requires 8 <= size <= |msg|
    ensures msg[..size] == msg[..8] + msg[8..size]
  {
  }

  lemma PrefixOfFrame(id: Word, body: seq<Byte>, header: seq<Byte>)
    requires 8 + |body| <= 65535 && header == Header(BGP_FIB, 8 + |body|, id)
    ensures var b, size := Framed(id, body), 8 + |body|;
            |b| == WireSize(size).value && size <= |b| < size + 8 && b[..size] == header + body
  {
  }

  // ----- Step by step -----

  class FibMessage {
    var size: nat
    var routerId: Word
    var routes: seq<Route>

    constructor (routerId: Word, routes: seq<Route>)
      ensures this.routerId == routerId && this.routes == routes
    {
      this.routerId, this.routes, this.size := routerId, routes, 8 + 12 * |routes|;
    }

    method Pack() returns (r: Result<seq<Byte>>)
      modifies this`size
      ensures r == Frame(Fib(routerId, routes)) && size == 8 + 12 * |routes|
    {
      size := HEADER_LEN + |routes| * ENTRY_LEN;
      var padded := WireSize(size);
      if padded.Err? {
        return Err;
      }
      var body := PackRoutes(routes);
      if body.Err? {
        return Err;
      }
      return Ok(Header(BGP_FIB, size, routerId) + body.value + Zeros(padded.value - size));
    }

    method UnpackHeader(msg: seq<Byte>) returns (ok: bool)
      modifies this`size, this`routerId
      ensures ok <==> FrameSize(msg).Ok?
      ensures ok ==> |msg| >= 8 && size == FrameSize(msg).value && routerId == Decode(msg[4..8])
    {
      if |msg| < HEADER_LEN {
        return false;
      }
      EncodeDecode(msg[4..8]);
      PowerOfWord();
      var kind := Decode(msg[0..2]);
      size, routerId := Decode(msg[2..4]), Decode(msg[4..8]);
      if kind > 3 {
        return false;
      }
      var padded := WireSize(size);
      if padded.Err? || kind != BGP_FIB {
        return false;
      }
      return |msg| == padded.value;
    }

    method Unpack(msg: seq<Byte>) returns (ok: bool)
      modifies this
      ensures ok <==> Parse(msg).Ok?
      ensures ok ==> Fib(routerId, routes) == Parse(msg).value
    {
      ok := UnpackHeader(msg);
      if !ok {
        return;
      }
      if (size - HEADER_LEN) % ENTRY_LEN != 0 {
        return false;
      }
      var parsed := UnpackRoutes(msg[HEADER_LEN..size], (size - HEADER_LEN) / ENTRY_LEN);
      ok := parsed.Ok?;
      if ok {
        routes := parsed.value;
      }
    }
  }

  method UnpackEntry(b: seq<Byte>) returns (r: Result<Route>)
    requires |b| == 12
    ensures r == ParseEntry(b)
  {
    EncodeDecode(b[0..4]);
    EncodeDecode(b[8..12]);
    PowerOfWord();
    var ip, mask, nextHop := Decode(b[0..4]), Decode(b[4..8]), Decode(b[8..12]);
    var cidr := BitCount(mask);
    if CidrToNetmask(cidr) != Ok(mask) {
      return Err;
    }
    return Ok(Route(ip, cidr, nextHop));
  }

  method PackRoutes(routes: seq<Route>) returns (r: Result<seq<Byte>>)
    ensures r == if LengthsOk(routes) then Ok(Payload(routes)) else Err
  {
    var parts: seq<Byte>, i := [], 0;
    while i < |routes|
      invariant 0 <= i <= |routes| && LengthsOk(routes[..i])
      invariant LengthsOk(routes) ==> LengthsOk(routes[i..]) && parts + Payload(routes[i..]) == Payload(routes)
    {
      var mask := CidrToNetmask(routes[i].length);
      if mask.Err? {
        assert routes[i] in routes;
        return Err;
      }
      assert routes[..i + 1] == routes[..i] + [routes[i]];
      if LengthsOk(routes) {
        PayloadStep(routes, i, parts);
      }
      parts := parts + EntryBytes(routes[i].ip, mask.value, routes[i].nextHop);
      i := i + 1;
    }
    assert routes[..|routes|] == routes && parts + [] == parts;
    return Ok(parts);
  }

  lemma PayloadStep(routes: seq<Route>, i: nat, parts: seq<Byte>)
    requires LengthsOk(routes) && i < |routes|
    ensures LengthsOk(routes[i..]) && LengthsOk(routes[i + 1..])
    ensures parts + Payload(routes[i..]) == (parts + RouteBytes(routes[i])) + Payload(routes[i + 1..])
  {
    assert routes[i..][1..] == routes[i + 1..];
  }

  /** Whether the routes and what the rest of the payload parses to make up `goal`. */
  ghost predicate Remains(routes: seq<Route>, rest: seq<Byte>, left: nat, goal: Result<seq<Route>>) {
    |rest| == 12 * left && goal == After(routes, ParseRoutes(rest, left))
  }

  lemma NothingRemains(routes: seq<Route>, rest: seq<Byte>, goal: Result<seq<Route>>)
    requires Remains(routes, rest, 0, goal)
    ensures goal == Ok(routes)
  {
    assert routes + [] == routes;
  }

  lemma AllRemains(body: seq<Byte>, n: nat)
    requires |body| == 12 * n
    ensures Remains([], body, n, ParseRoutes(body, n))
  {
    AfterNone(ParseRoutes(body, n));
  }

  /** Takes one entry off the front. */
  method UnpackNext(routes: seq<Route>, rest: seq<Byte>, ghost left: nat, ghost goal: Result<seq<Route>>)
    returns (more: Result<seq<Route>>)
    requires left > 0 && Remains(routes, rest, left, goal)
    ensures more.Err? ==> goal == Err
    ensures more.Ok? ==> Remains(more.value, rest[12..], left - 1, goal)
  {
    var next := UnpackEntry(rest[..12]);
    ParseStep(routes, rest, left, next, goal);
    more := if next.Ok? then Ok(routes + [next.value]) else Err;
  }

  method UnpackRoutes(body: seq<Byte>, n: nat) returns (r: Result<seq<Route>>)
    requires |body| == 12 * n
    ensures r == ParseRoutes(body, n)
  {
    var routes: seq<Route>, rest, left := [], body, n;
    ghost var goal := ParseRoutes(body, n);
    AllRemains(body, n);
    while left > 0
      invariant Remains(routes, rest, left, goal)
    {
      var more := UnpackNext(routes, rest, left, goal);
      if more.Err? {
        return Err;
      }
      routes, rest, left := more.value, rest[12..], left - 1;
    }
    NothingRemains(routes, rest, goal);
    return Ok(routes);
  }

  lemma ParseStep(routes: seq<Route>, rest: seq<Byte>, left: nat, next: Result<Route>, goal: Result<seq<Route>>)
    requires left > 0 && |rest| == 12 * left && next == ParseEntry(rest[..12])
    requires goal == After(routes, ParseRoutes(rest, left))
    ensures next.Err? ==> goal == Err
    ensures next.Ok? ==> goal == After(routes + [next.value], ParseRoutes(rest[12..], left - 1))
  {
    AfterNext(routes, next, ParseRoutes(rest[12..], left - 1));
  }

  /** The routes parsed so far and those that the rest gives. */
  function After(routes: seq<Route>, rest: Result<seq<Route>>): Result<seq<Route>> {
    if rest.Ok? then Ok(routes + rest.value) else Err
  }

  lemma AfterNone(rest: Result<seq<Route>>)
    ensures After([], rest) == rest
  {
    if rest.Ok? {
      assert [] + rest.value == rest.value;
    }
  }

  lemma AfterNext(routes: seq<Route>, next: Result<Route>, rest: Result<seq<Route>>)
    ensures After(routes, Prepended(next, rest)) == if next.Ok? then After(routes + [next.value], rest) else Err
  {
    if next.Ok? && rest.Ok? {
      assert routes + ([next.value] + rest.value) == (routes + [next.value]) + rest.value;
    }
  }
}
