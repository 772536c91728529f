/**
 * DHCP option 121, classless static routes (dhcpopts.go): the
 * `dhcp_options.classless_routes` builtin turns a dictionary of
 * destination networks and gateways into the option's payload, in the
 * encoding of RFC 3442 section 3 (per route: the prefix length, the
 * significant octets of the destination, the four octets of the router),
 * printed as upper-case hexadecimal.
 */
module DhcpOpts {
  import opened Wrappers
  import opened Strconv
  import opened Ipv4
  import opened Starlark

  datatype RouteError =
    | EmptyRoutes                                  // "empty route list"
    | BadNetwork(net: string, cause: ParseError)
    | BadGateway(gw: string, cause: ParseError)
    | NotASubnet(key: Value)                       // "invalid subnet ...: it must be network/mask or default"
    | NotAGateway(val: Value)                      // "invalid gateway ...: it must be a unicast address"

  /** One static route: destination network and router. */
  datatype Route = Route(net: Prefix, gw: u32)

  /** The network text "default" stands for 0.0.0.0/0. */
  function NetworkText(s: string): string {
    if s == "default" then "0.0.0.0/0" else s
  }

  /** The number of significant octets of a destination: the prefix length rounded up to whole octets. */
  function Significant(bits: PrefixLen): (n: nat)
    ensures n <= 4 && 8 * n >= bits && 8 * n < bits + 8
  {
    (bits + 7) / 8
  }

  /** `k` zero octets. */
  function Zeros(k: nat): (z: seq<byte>)
    ensures |z| == k && forall i | 0 <= i < k :: z[i] == 0
  {
    seq(k, _ => 0)
  }

  // ---------------------------------------------------------------------------
  // Encoding

  /** The bytes of one route as the code writes them: the destination octets are those of the prefix as parsed. */
  function RouteBytesAsWritten(r: Route): (b: seq<byte>)
    ensures |b| == 5 + Significant(r.net.bits) && b[0] == r.net.bits
    ensures b[1..1 + Significant(r.net.bits)] == Octets(r.net.addr)[..Significant(r.net.bits)]
    ensures b[1 + Significant(r.net.bits)..] == Octets(r.gw)
  {
    [r.net.bits] + Octets(r.net.addr)[..Significant(r.net.bits)] + Octets(r.gw)
  }

  /**
   * The bytes of one route with the destination masked to its network
   * address, as the function's documentation ("netmasked network
   * addresses") and RFC 3442 ask.
   */
  function RouteBytes(r: Route): (b: seq<byte>)
    ensures |b| == 5 + Significant(r.net.bits) && b[0] == r.net.bits
    ensures b[1..1 + Significant(r.net.bits)] == Octets(Network(r.net))[..Significant(r.net.bits)]
    ensures b[1 + Significant(r.net.bits)..] == Octets(r.gw)
  {
    [r.net.bits] + Octets(Network(r.net))[..Significant(r.net.bits)] + Octets(r.gw)
  }

  /** The two encodings agree on every destination written without host bits. */
  lemma RouteBytesMasked(r: Route)
    requires r.net.addr == Network(r.net)
    ensures RouteBytesAsWritten(r) == RouteBytes(r)
  {
  }

  /** As written, "10.0.0.129/25" is sent with destination octets 10.0.0.129 instead of its subnet number 10.0.0.128. */
  lemma RouteBytesAsWrittenHostBits()
    ensures var r := Route(Prefix(0x0A00_0081, 25), 0x0A00_0001);
      RouteBytesAsWritten(r)[4] == 0x81 && RouteBytes(r)[4] == 0x80 && Network(r.net) == 0x0A00_0080
  {
    var p := Prefix(0x0A00_0081, 25);
    Pow2Add(7, 0);
    assert BlockSize(p) == 0x80;
    DivModUnique(0x0A00_0081, 0x80, 0x14_0001, 1);
  }

  /** The routes one after the other. */
  function EncodeAll(rs: seq<Route>): seq<byte> {
    if rs == [] then [] else EncodeAll(rs[..|rs| - 1]) + RouteBytes(rs[|rs| - 1])
  }

  /** One network and its gateway, or the error for whichever of the two does not parse first. */
  function ParsePair(net: string, gw: string): (r: Result<Route, RouteError>)
    ensures r.Ok? <==> ParsePrefix(NetworkText(net)).Ok? && ParseAddr(gw).Ok?
    ensures r.Ok? ==> r.value == Route(ParsePrefix(NetworkText(net)).value, ParseAddr(gw).value.ui)
  {
    match ParsePrefix(NetworkText(net))
    case Err(e) => Err(BadNetwork(NetworkText(net), e))
    case Ok(p) =>
      match ParseAddr(gw)
      case Err(e) => Err(BadGateway(gw, e))
      case Ok(a) => Ok(Route(p, a.ui))
  }

  /**
   * The routes of an alternating list of networks and gateways, or the
   * error for the first network or gateway that does not parse.
   */
  function ParseRoutes(routes: seq<string>): (r: Result<seq<Route>, RouteError>)
    requires |routes| % 2 == 0
    ensures r.Ok? ==> 2 * |r.value| == |routes|
    decreases |routes|
  {
    if routes == [] then Ok([])
    else
      var k := |routes| - 2;
      match ParseRoutes(routes[..k])
      case Err(e) => Err(e)
      case Ok(rs) =>
        match ParsePair(routes[k], routes[k + 1])
        case Err(e) => Err(e)
        case Ok(route) => Ok(rs + [route])
  }

  lemma ParseRoutesSnoc(routes: seq<string>, i: nat)
    requires i % 2 == 0 && i + 2 <= |routes|
    ensures ParseRoutes(routes[..i + 2]) ==
      match ParseRoutes(routes[..i])
      case Err(e) => Err(e)
      case Ok(rs) =>
        match ParsePair(routes[i], routes[i + 1])
        case Err(e) => Err(e)
        case Ok(route) => Ok(rs + [route])
  {
    var t := routes[..i + 2];
    assert t[..i] == routes[..i] && t[i] == routes[i] && t[i + 1] == routes[i + 1];
  }

  /** What `encodeRoutes` answers: an empty list is an error, otherwise the encoded routes or the first parse error. */
  function Encoding(routes: seq<string>): (r: Result<seq<byte>, RouteError>)
    requires |routes| % 2 == 0
    ensures routes == [] ==> r == Err(EmptyRoutes)
    ensures r.Ok? <==> routes != [] && ParseRoutes(routes).Ok?
  {
    if routes == [] then Err(EmptyRoutes)
    else
      match ParseRoutes(routes)
      case Err(e) => Err(e)
      case Ok(rs) => Ok(EncodeAll(rs))
  }

  /** A pair that fails to parse decides the answer for every longer list. */
  lemma {:induction false} ParseRoutesErr(routes: seq<string>, i: nat)
    requires |routes| % 2 == 0 && i % 2 == 0 && i <= |routes|
    requires ParseRoutes(routes[..i]).Err?
    ensures ParseRoutes(routes) == ParseRoutes(routes[..i])
    decreases |routes|
  {
    if i < |routes| {
      var k := |routes| - 2;
      assert routes[..k][..i] == routes[..i];
      ParseRoutesErr(routes[..k], i);
    } else {
      assert routes[..i] == routes;
    }
  }

  lemma EvenStep(i: int, n: int)
    requires i % 2 == 0 && n % 2 == 0 && i < n
    ensures i + 2 <= n && (i + 2) % 2 == 0
  {
  }

  /** A pair that does not parse is the answer for the whole list. */
  lemma EncodingFails(routes: seq<string>, i: nat, rs: seq<Route>)
    requires |routes| % 2 == 0 && i % 2 == 0 && i + 2 <= |routes| && ParseRoutes(routes[..i]) == Ok(rs)
    requires ParsePair(routes[i], routes[i + 1]).Err?
    ensures Encoding(routes) == Err(ParsePair(routes[i], routes[i + 1]).error)
  {
    ParseRoutesSnoc(routes, i);
    ParseRoutesErr(routes, i + 2);
  }

  lemma ParseRoutesExtend(routes: seq<string>, i: nat, rs: seq<Route>)
    requires i % 2 == 0 && (i + 2) % 2 == 0 && i + 2 <= |routes| && ParseRoutes(routes[..i]) == Ok(rs)
    requires ParsePair(routes[i], routes[i + 1]).Ok?
    ensures ParseRoutes(routes[..i + 2]) == Ok(rs + [ParsePair(routes[i], routes[i + 1]).value])
  {
    ParseRoutesSnoc(routes, i);
  }

  lemma EncodeAllSnoc(rs: seq<Route>, r: Route)
    ensures EncodeAll(rs + [r]) == EncodeAll(rs) + RouteBytes(r)
  {
    assert (rs + [r])[..|rs|] == rs;
  }

  /**
   * `encodeRoutes`. An odd-length list is a programming error the code
   * panics on, so the caller must pass whole pairs.
   */
  method EncodeRoutes(routes: seq<string>) returns (r: Result<seq<byte>, RouteError>)
    requires |routes| % 2 == 0
    ensures r == Encoding(routes)
  {
    if |routes| == 0 {
      return Err(EmptyRoutes);
    }
    var enc: seq<byte> := [];
    ghost var rs: seq<Route> := [];
    var i := 0;
    assert routes[..0] == [];
    while i < |routes|
      invariant 0 <= i <= |routes| && i % 2 == 0
      invariant ParseRoutes(routes[..i]) == Ok(rs) && enc == EncodeAll(rs)
    {
      EvenStep(i, |routes|);
      var net := NetworkText(routes[i]);
      var npf := ParsePrefix(net);
      if npf.Err? {
        EncodingFails(routes, i, rs);
        return Err(BadNetwork(net, npf.error));
      }
      var gw := ParseAddr(routes[i + 1]);
      if gw.Err? {
        EncodingFails(routes, i, rs);
        return Err(BadGateway(routes[i + 1], gw.error));
      }
      var route := Route(npf.value, gw.value.ui);
      ParseRoutesExtend(routes, i, rs);
      enc := enc + RouteBytes(route);
      EncodeAllSnoc(rs, route);
      rs := rs + [route];
      i := i + 2;
    }
    assert routes[..i] == routes;
    return Ok(enc);
  }

  // ---------------------------------------------------------------------------
  // Decoding: what a DHCP client reads back

  /** The length of the route a payload starts with, when it holds one whole route. */
  function RouteLength(bs: seq<byte>): (len: nat)
    requires bs != []
    ensures len == 0 || 5 <= len <= |bs|
  {
    if bs[0] > 32 || |bs| < 5 + Significant(bs[0]) then 0 else 5 + Significant(bs[0])
  }

  /** The route a payload starts with, its destination completed with zero octets. */
  function FirstRoute(bs: seq<byte>): Route
    requires bs != [] && RouteLength(bs) > 0
  {
    var n := Significant(bs[0]);
    Route(Prefix(FromOctets(bs[1..1 + n] + Zeros(4 - n)), bs[0]), FromOctets(bs[1 + n..5 + n]))
  }

  /** Reads a payload back into routes. */
  function DecodeRoutes(bs: seq<byte>): (r: Option<seq<Route>>)
    ensures r == Some([]) <==> bs == []
    ensures r.Some? ==> 5 * |r.value| <= |bs|
    decreases |bs|
  {
    if bs == [] then Some([])
    else if RouteLength(bs) == 0 then None
    else
      match DecodeRoutes(bs[RouteLength(bs)..])
      case None => None
      case Some(rest) => Some([FirstRoute(bs)] + rest)
  }

  /** Whatever follows a whole route does not change how that route reads. */
  lemma FirstRouteAppend(a: seq<byte>, b: seq<byte>)
    requires a != [] && RouteLength(a) > 0
    ensures RouteLength(a + b) == RouteLength(a) && FirstRoute(a + b) == FirstRoute(a)
    ensures (a + b)[RouteLength(a)..] == a[RouteLength(a)..] + b
  {
    var n := Significant(a[0]);
    assert (a + b)[0] == a[0];
    SliceOfConcat(a, b, 1, 1 + n);
    SliceOfConcat(a, b, 1 + n, 5 + n);
  }

  /** A route with its destination reduced to the network address. */
  function Masked(r: Route): (m: Route)
    ensures m.net.bits == r.net.bits && m.gw == r.gw && Contains(r.net, V4(m.net.addr))
  {
    NetworkFacts(r.net);
    ContainsRange(r.net, Network(r.net));
    Route(Prefix(Network(r.net), r.net.bits), r.gw)
  }

  function MaskedAll(rs: seq<Route>): (ms: seq<Route>)
    ensures |ms| == |rs| && forall i | 0 <= i < |rs| :: ms[i] == Masked(rs[i])
  {
    seq(|rs|, i requires 0 <= i < |rs| => Masked(rs[i]))
  }

  lemma LowOctet(x: u32, c: nat)
    requires x == c * 0x100
    ensures Octets(x)[3] == 0
  {
    DivModUnique(x, 0x100, c, 0);
  }

  lemma LowOctets2(x: u32, c: nat)
    requires x == c * 0x1_0000
    ensures Octets(x)[2] == 0 && Octets(x)[3] == 0
  {
    assert x == (c * 0x100) * 0x100;
    LowOctet(x, c * 0x100);
    DivModUnique(x, 0x100, c * 0x100, 0);
    DivModUnique(c * 0x100, 0x100, c, 0);
  }

  lemma LowOctets3(x: u32, c: nat)
    requires x == c * 0x100_0000
    ensures Octets(x)[1] == 0 && Octets(x)[2] == 0 && Octets(x)[3] == 0
  {
    assert x == (c * 0x100) * 0x1_0000;
    LowOctets2(x, c * 0x100);
    DivModUnique(x, 0x1_0000, c * 0x100, 0);
    DivModUnique(c * 0x100, 0x100, c, 0);
  }

  lemma MulSwap(a: int, b: int, c: int)
    ensures a * (b * c) == (a * c) * b
  {
  }

  /** A network address is a multiple of 2^(32 - 8n) when n octets are significant. */
  lemma NetworkMultiple(p: Prefix) returns (c: nat)
    ensures Network(p) == c * Pow2(32 - 8 * Significant(p.bits))
  {
    var n := Significant(p.bits);
    var e := 32 - 8 * n;
    NetworkFacts(p);
    Pow2Add(e, 8 * n - p.bits);
    assert BlockSize(p) == Pow2(e) * Pow2(8 * n - p.bits);
    var q := p.addr / BlockSize(p);
    MulSwap(q, Pow2(e), Pow2(8 * n - p.bits));
    c := q * Pow2(8 * n - p.bits);
  }

  /** The destination octets left out of the encoding are zero in the network address. */
  lemma MaskedDest(p: Prefix)
    ensures var n := Significant(p.bits);
      FromOctets(Octets(Network(p))[..n] + Zeros(4 - n)) == Network(p)
  {
    var n := Significant(p.bits);
    var x := Network(p);
    var c := NetworkMultiple(p);
    LowOctetsZero(x, n, c);
    var o := Octets(x);
    assert o[..n] + Zeros(4 - n) == o;
    OctetsRoundTrip(x);
  }

  /** A multiple of 2^(32 - 8n) has zero octets after the first n. */
  lemma LowOctetsZero(x: u32, n: nat, c: nat)
    requires n <= 4 && x == c * Pow2(32 - 8 * n)
    ensures forall k | n <= k < 4 :: Octets(x)[k] == 0
  {
    OctetPowers();
    if n == 0 {
      NoWholeBlock(x, c);
    } else if n == 1 {
      LowOctets3(x, c);
    } else if n == 2 {
      LowOctets2(x, c);
    } else if n == 3 {
      LowOctet(x, c);
    }
  }

  lemma OctetPowers()
    ensures Pow2(0) == 1 && Pow2(8) == 0x100 && Pow2(16) == 0x1_0000 && Pow2(24) == 0x100_0000 && Pow2(32) == 0x1_0000_0000
  {
    Pow2Values();
    Pow2Add(16, 8);
  }

  lemma NoWholeBlock(x: u32, c: nat)
    requires x == c * 0x1_0000_0000
    ensures x == 0 && Octets(x) == [0, 0, 0, 0]
  {
    if c >= 1 {
      MulLe(1, c, 0x1_0000_0000);
    }
  }



  /** One encoded route reads back as the route with its destination masked. */
  lemma DecodeRouteBytes(r: Route)
    ensures DecodeRoutes(RouteBytes(r)) == Some([Masked(r)])
  {
    var b := RouteBytes(r);
    var n := Significant(r.net.bits);
    assert b[0] == r.net.bits && |b| == 5 + n && RouteLength(b) == 5 + n;
    assert b[1..1 + n] == Octets(Network(r.net))[..n];
    assert b[1 + n..5 + n] == Octets(r.gw);
    assert b[5 + n..] == [];
    MaskedDest(r.net);
    OctetsRoundTrip(r.gw);
    assert FirstRoute(b) == Masked(r);
    assert DecodeRoutes(b) == Some([FirstRoute(b)] + []);
    assert [FirstRoute(b)] + [] == [Masked(r)];
  }

  /** Decoding two well-formed payloads one after the other gives the routes of both. */
  lemma {:induction false} DecodeAppend(a: seq<byte>, b: seq<byte>)
    requires DecodeRoutes(a).Some? && DecodeRoutes(b).Some?
    ensures DecodeRoutes(a + b) == Some(DecodeRoutes(a).value + DecodeRoutes(b).value)
    decreases |a|
  {
    if a == [] {
      assert a + b == b;
      assert [] + DecodeRoutes(b).value == DecodeRoutes(b).value;
    } else {
      var len := RouteLength(a);
      var first, rest, tail := FirstRoute(a), DecodeRoutes(a[len..]).value, DecodeRoutes(b).value;
      DecodeAppend(a[len..], b);
      DecodeAppendStep(a, b, rest, tail);
      ConsAppend(first, rest, tail);
    }
  }

  lemma ConsAppend<T>(x: T, r: seq<T>, t: seq<T>)
    ensures [x] + (r + t) == ([x] + r) + t
  {
  }

  /** The inductive step of `DecodeAppend`, from what it states about the rest of `a`. */
  lemma DecodeAppendStep(a: seq<byte>, b: seq<byte>, rest: seq<Route>, tail: seq<Route>)
    requires a != [] && RouteLength(a) > 0
    requires DecodeRoutes(a[RouteLength(a)..]) == Some(rest)
    requires DecodeRoutes(a[RouteLength(a)..] + b) == Some(rest + tail)
    ensures DecodeRoutes(a) == Some([FirstRoute(a)] + rest)
    ensures DecodeRoutes(a + b) == Some([FirstRoute(a)] + (rest + tail))
  {
    DecodeStep(a);
    DecodeAfterRoute(a, b);
  }

  /** A payload that starts with a whole route decodes as that route, then the rest. */
  lemma DecodeAfterRoute(a: seq<byte>, b: seq<byte>)
    requires a != [] && RouteLength(a) > 0 && DecodeRoutes(a[RouteLength(a)..] + b).Some?
    ensures DecodeRoutes(a + b) == Some([FirstRoute(a)] + DecodeRoutes(a[RouteLength(a)..] + b).value)
  {
    FirstRouteAppend(a, b);
    DecodeStep(a + b);
  }

  lemma DecodeStep(bs: seq<byte>)
    requires bs != [] && RouteLength(bs) > 0 && DecodeRoutes(bs[RouteLength(bs)..]).Some?
    ensures DecodeRoutes(bs) == Some([FirstRoute(bs)] + DecodeRoutes(bs[RouteLength(bs)..]).value)
  {
  }

  lemma SliceOfConcat<T>(a: seq<T>, b: seq<T>, i: int, j: int)
    requires 0 <= i <= j <= |a|
    ensures (a + b)[i..j] == a[i..j]
  {
  }

  /**
   * The round trip of RFC 3442: a client decoding the payload finds every
   * route, in order, with its destination reduced to the network address.
   */
  lemma {:induction false} DecodeEncodeAll(rs: seq<Route>)
    ensures DecodeRoutes(EncodeAll(rs)) == Some(MaskedAll(rs))
  {
    if rs != [] {
      var init, last := rs[..|rs| - 1], rs[|rs| - 1];
      DecodeEncodeAll(init);
      DecodeRouteBytes(last);
      DecodeAppend(EncodeAll(init), RouteBytes(last));
      MaskedAllSnoc(rs);
    }
  }

  lemma MaskedAllSnoc(rs: seq<Route>)
    requires rs != []
    ensures MaskedAll(rs) == MaskedAll(rs[..|rs| - 1]) + [Masked(rs[|rs| - 1])]
  {
    assert MaskedAll(rs) == MaskedAll(rs[..|rs| - 1]) + [Masked(rs[|rs| - 1])];
  }

  // ---------------------------------------------------------------------------
  // The builtin

  /** The dictionary's entries as alternating network and gateway strings, or the first entry that is not a pair of strings. */
  function Collect(entries: seq<(Value, Value)>): (r: Result<seq<string>, RouteError>)
    ensures r.Ok? ==> |r.value| == 2 * |entries| && |r.value| % 2 == 0
  {
    if entries == [] then Ok([])
    else
      var (net, gw) := entries[|entries| - 1];
      match Collect(entries[..|entries| - 1])
      case Err(e) => Err(e)
      case Ok(rs) =>
        if !net.Str? then Err(NotASubnet(net))
        else if !gw.Str? then Err(NotAGateway(gw))
        else Ok(rs + [net.s, gw.s])
  }

  lemma {:induction false} CollectErr(entries: seq<(Value, Value)>, i: nat)
    requires i <= |entries| && Collect(entries[..i]).Err?
    ensures Collect(entries) == Collect(entries[..i])
    decreases |entries|
  {
    if i < |entries| {
      var k := |entries| - 1;
      assert entries[..k][..i] == entries[..i];
      CollectErr(entries[..k], i);
    } else {
      assert entries[..i] == entries;
    }
  }

  /** What `classless_routes(routes)` answers for a dictionary with these entries, in insertion order. */
  function ClasslessRoutesOutcome(entries: seq<(Value, Value)>): (r: Result<string, RouteError>)
    ensures entries == [] ==> r == Err(EmptyRoutes)
    ensures r.Ok? <==> Collect(entries).Ok? && Encoding(Collect(entries).value).Ok?
    ensures r.Ok? ==> |r.value| == 2 * |Encoding(Collect(entries).value).value|
  {
    match Collect(entries)
    case Err(e) => Err(e)
    case Ok(routes) =>
      match Encoding(routes)
      case Err(e) => Err(e)
      case Ok(enc) => Ok(UpperHexBytes(enc))
  }

  /** `classless_routes(routes)`. */
  method ClasslessRoutes(entries: seq<(Value, Value)>) returns (r: Result<string, RouteError>)
    ensures r == ClasslessRoutesOutcome(entries)
  {
    var routes: seq<string> := [];
    for i := 0 to |entries|
      invariant Collect(entries[..i]) == Ok(routes)
    {
      assert entries[..i + 1][..i] == entries[..i];
      var (net, gw) := entries[i];
      if !net.Str? {
        CollectErr(entries, i + 1);
        return Err(NotASubnet(net));
      }
      if !gw.Str? {
        CollectErr(entries, i + 1);
        return Err(NotAGateway(gw));
      }
      routes := routes + [net.s, gw.s];
    }
    assert entries[..|entries|] == entries;
    var enc := EncodeRoutes(routes);
    if enc.Err? {
      return Err(enc.error);
    }
    return Ok(UpperHexBytes(enc.value));
  }

  /** Whatever `encodeRoutes` answers decodes back into the routes, in order, destinations masked. */
  lemma EncodingDecode(routes: seq<string>)
    requires |routes| % 2 == 0 && Encoding(routes).Ok?
    ensures ParseRoutes(routes).Ok? && DecodeRoutes(Encoding(routes).value) == Some(MaskedAll(ParseRoutes(routes).value))
  {
    DecodeEncodeAll(ParseRoutes(routes).value);
  }

  /** The text the builtin answers reads back as the bytes `encodeRoutes` produced. */
  lemma ClasslessRoutesHex(entries: seq<(Value, Value)>)
    requires ClasslessRoutesOutcome(entries).Ok?
    ensures Collect(entries).Ok? && Encoding(Collect(entries).value).Ok?
    ensures ParseUpperHexBytes(ClasslessRoutesOutcome(entries).value) == Some(Encoding(Collect(entries).value).value)
  {
    var enc := Encoding(Collect(entries).value).value;
    UpperHexBytesRoundTrip(enc);
  }

  /** An empty dictionary is refused. */
  lemma ClasslessRoutesEmpty()
    ensures ClasslessRoutesOutcome([]) == Err(EmptyRoutes)
  {
  }

  /** The payload of the default route via 192.0.2.1: "00C0000201". */
  lemma DefaultRouteVector()
    ensures RouteBytes(Route(Prefix(0, 0), 0xC000_0201)) == [0x00, 0xC0, 0x00, 0x02, 0x01]
  {
    var p := Prefix(0, 0);
    assert Significant(0) == 0;
    FromOctetsRoundTrip([0xC0, 0x00, 0x02, 0x01]);
    assert FromOctets([0xC0, 0x00, 0x02, 0x01]) == 0xC000_0201;
    var b := RouteBytes(Route(p, 0xC000_0201));
    assert b == [0] + Octets(Network(p))[..0] + Octets(0xC000_0201);
    assert Octets(Network(p))[..0] == [];
  }

  /** The payload of 192.0.2.0/24 via 192.0.2.110: "18C00002C000026E". */
  lemma SubnetRouteVector()
    ensures RouteBytes(Route(Prefix(0xC000_0200, 24), 0xC000_026E)) == [0x18, 0xC0, 0x00, 0x02, 0xC0, 0x00, 0x02, 0x6E]
  {
    var p := Prefix(0xC000_0200, 24);
    Pow2Values();
    assert BlockSize(p) == 0x100;
    DivModUnique(0xC000_0200, 0x100, 0xC0_0002, 0);
    assert Network(p) == 0xC000_0200;
    assert Significant(24) == 3;
    FromOctetsRoundTrip([0xC0, 0x00, 0x02, 0x00]);
    FromOctetsRoundTrip([0xC0, 0x00, 0x02, 0x6E]);
  }

  /** The payload of 10.0.0.0/8 via 10.0.0.1: "080A0A000001". */
  lemma ClassARouteVector()
    ensures RouteBytes(Route(Prefix(0x0A00_0000, 8), 0x0A00_0001)) == [0x08, 0x0A, 0x0A, 0x00, 0x00, 0x01]
  {
    var p := Prefix(0x0A00_0000, 8);
    Pow2Values();
    Pow2Add(8, 16);
    assert BlockSize(p) == 0x100_0000;
    DivModUnique(0x0A00_0000, 0x100_0000, 0x0A, 0);
    assert Network(p) == 0x0A00_0000;
    assert Significant(8) == 1;
    FromOctetsRoundTrip([0x0A, 0x00, 0x00, 0x00]);
    FromOctetsRoundTrip([0x0A, 0x00, 0x00, 0x01]);
  }

  /** The payload of 192.0.2.0/24 via 192.0.2.1: "18C00002C0000201". */
  lemma SubnetRouteVectorOne()
    ensures RouteBytes(Route(Prefix(0xC000_0200, 24), 0xC000_0201)) == [0x18, 0xC0, 0x00, 0x02, 0xC0, 0x00, 0x02, 0x01]
  {
    var p := Prefix(0xC000_0200, 24);
    Pow2Values();
    assert BlockSize(p) == 0x100;
    DivModUnique(0xC000_0200, 0x100, 0xC0_0002, 0);
    assert Network(p) == 0xC000_0200;
    assert Significant(24) == 3;
    FromOctetsRoundTrip([0xC0, 0x00, 0x02, 0x00]);
    FromOctetsRoundTrip([0xC0, 0x00, 0x02, 0x01]);
  }

  /** The default route via 192.0.2.1, then 192.0.2.0/24 via 192.0.2.110: "00C000020118C00002C000026E". */
  lemma TwoRoutesVector()
    ensures EncodeAll([Route(Prefix(0, 0), 0xC000_0201), Route(Prefix(0xC000_0200, 24), 0xC000_026E)]) ==
      [0x00, 0xC0, 0x00, 0x02, 0x01, 0x18, 0xC0, 0x00, 0x02, 0xC0, 0x00, 0x02, 0x6E]
  {
    var r1, r2 := Route(Prefix(0, 0), 0xC000_0201), Route(Prefix(0xC000_0200, 24), 0xC000_026E);
    EncodeAllSnoc([r1], r2);
    EncodeAllSnoc([], r1);
    assert [r1] + [r2] == [r1, r2];
    DefaultRouteVector();
    SubnetRouteVector();
  }

  /** A pair whose texts are the printed forms of a prefix and an address parses as that route. */
  lemma PairParses(net: string, gw: string, p: Prefix, a: u32)
    requires NetworkText(net) == FormatPrefix(p) && gw == FormatAddr(V4(a))
    ensures ParsePair(net, gw) == Ok(Route(p, a))
  {
    ParseFormatPrefix(p);
    ParseFormatAddr(a);
  }

  /** The printed forms of the test's addresses. */
  lemma TestAddrTexts()
    ensures FormatAddr(V4(0xC000_0201)) == "192.0.2.1"
    ensures FormatAddr(V4(0xC000_026E)) == "192.0.2.110"
    ensures FormatAddr(V4(0x0A00_0001)) == "10.0.0.1"
  {
    AddrTextFirstGateway();
    AddrTextSecondGateway();
    AddrTextClassAGateway();
  }

  lemma AddrTextFirstGateway()
    ensures FormatAddr(V4(0xC000_0201)) == "192.0.2.1"
  {
    FromOctetsRoundTrip([0xC0, 0x00, 0x02, 0x01]);
    assert Octets(0xC000_0201) == [192, 0, 2, 1];
    assert FormatNat(192) == "192";
  }

  lemma AddrTextSecondGateway()
    ensures FormatAddr(V4(0xC000_026E)) == "192.0.2.110"
  {
    FromOctetsRoundTrip([0xC0, 0x00, 0x02, 0x6E]);
    assert Octets(0xC000_026E) == [192, 0, 2, 110];
    assert FormatNat(192) == "192" && FormatNat(110) == "110";
  }

  lemma AddrTextClassAGateway()
    ensures FormatAddr(V4(0x0A00_0001)) == "10.0.0.1"
  {
    FromOctetsRoundTrip([0x0A, 0x00, 0x00, 0x01]);
    assert Octets(0x0A00_0001) == [10, 0, 0, 1];
    assert FormatNat(10) == "10";
  }

  /** The printed forms of the test's networks. */
  lemma TestPrefixTexts()
    ensures FormatPrefix(Prefix(0, 0)) == "0.0.0.0/0"
    ensures FormatPrefix(Prefix(0xC000_0200, 24)) == "192.0.2.0/24"
    ensures FormatPrefix(Prefix(0x0A00_0000, 8)) == "10.0.0.0/8"
  {
    PrefixTextDefault();
    PrefixTextSubnet();
    PrefixTextClassA();
  }

  lemma PrefixTextDefault()
    ensures FormatPrefix(Prefix(0, 0)) == "0.0.0.0/0"
  {
  }

  lemma PrefixTextSubnet()
    ensures FormatPrefix(Prefix(0xC000_0200, 24)) == "192.0.2.0/24"
  {
    FromOctetsRoundTrip([0xC0, 0x00, 0x02, 0x00]);
    assert Octets(0xC000_0200) == [192, 0, 2, 0];
    assert FormatNat(192) == "192" && FormatNat(24) == "24";
  }

  lemma PrefixTextClassA()
    ensures FormatPrefix(Prefix(0x0A00_0000, 8)) == "10.0.0.0/8"
  {
    FromOctetsRoundTrip([0x0A, 0x00, 0x00, 0x00]);
    assert Octets(0x0A00_0000) == [10, 0, 0, 0];
    assert FormatNat(10) == "10";
  }

  /** A list of one pair encodes as that pair's route, or fails with its error. */
  lemma EncodingOnePair(net: string, gw: string)
    ensures Encoding([net, gw]) == match ParsePair(net, gw)
      case Err(e) => Err(e)
      case Ok(r) => Ok(RouteBytes(r))
  {
    var routes := [net, gw];
    assert routes[..0] == [] && routes[0] == net && routes[1] == gw;
    assert ParseRoutes(routes[..0]) == Ok([]);
    match ParsePair(net, gw)
    case Err(e) =>
      assert ParseRoutes(routes) == Err(e);
      assert Encoding(routes) == Err(e);
    case Ok(r) =>
      assert ParseRoutes(routes) == Ok([] + [r]);
      assert [] + [r] == [r] && [r][..0] == [];
      assert EncodeAll([r]) == EncodeAll([]) + RouteBytes(r);
      assert EncodeAll([]) == [] && [] + RouteBytes(r) == RouteBytes(r);
      assert Encoding(routes) == Ok(RouteBytes(r));
  }

  /** A list of two pairs that both parse encodes as the two routes one after the other. */
  lemma EncodingTwoPairs(n1: string, g1: string, n2: string, g2: string, r1: Route, r2: Route)
    requires ParsePair(n1, g1) == Ok(r1) && ParsePair(n2, g2) == Ok(r2)
    ensures Encoding([n1, g1, n2, g2]) == Ok(RouteBytes(r1) + RouteBytes(r2))
  {
    ParseTwoPairs(n1, g1, n2, g2, r1, r2);
    EncodeTwo(r1, r2);
  }

  lemma ParseTwoPairs(n1: string, g1: string, n2: string, g2: string, r1: Route, r2: Route)
    requires ParsePair(n1, g1) == Ok(r1) && ParsePair(n2, g2) == Ok(r2)
    ensures ParseRoutes([n1, g1, n2, g2]) == Ok([r1, r2])
  {
    var routes := [n1, g1, n2, g2];
    assert routes[..2] == [n1, g1] && routes[2] == n2 && routes[3] == g2;
    var one := [n1, g1];
    assert one[..0] == [] && one[0] == n1 && one[1] == g1;
    assert ParseRoutes(one[..0]) == Ok([]);
    assert ParseRoutes(one) == Ok([] + [r1]);
    assert [] + [r1] == [r1] && [r1] + [r2] == [r1, r2];
  }

  lemma EncodeTwo(r1: Route, r2: Route)
    ensures EncodeAll([r1, r2]) == RouteBytes(r1) + RouteBytes(r2)
  {
    EncodeAllSnoc([r1], r2);
    EncodeAllSnoc([], r1);
    assert [] + [r1] == [r1] && [r1] + [r2] == [r1, r2];
  }

  /** A dictionary of one pair of strings flattens into those two strings. */
  lemma CollectOne(net: string, gw: string)
    ensures Collect([(Str(net), Str(gw))]) == Ok([net, gw])
  {
    var entries := [(Str(net), Str(gw))];
    assert entries[..0] == [] && entries[0] == (Str(net), Str(gw));
    assert Collect(entries[..0]) == Ok([]);
    assert [] + [net, gw] == [net, gw];
  }

  /** A dictionary of two pairs of strings flattens into the four strings, in insertion order. */
  lemma CollectTwo(n1: string, g1: string, n2: string, g2: string)
    ensures Collect([(Str(n1), Str(g1)), (Str(n2), Str(g2))]) == Ok([n1, g1, n2, g2])
  {
    var entries := [(Str(n1), Str(g1)), (Str(n2), Str(g2))];
    assert entries[..1] == [(Str(n1), Str(g1))] && entries[1] == (Str(n2), Str(g2));
    CollectOne(n1, g1);
    assert [n1, g1] + [n2, g2] == [n1, g1, n2, g2];
  }

  /** `%X` of the first test payload. */
  lemma DefaultRouteHex()
    ensures UpperHexBytes([0x00, 0xC0, 0x00, 0x02, 0x01]) == "00C0000201"
  {
    var bs: seq<byte> := [0x00, 0xC0, 0x00, 0x02, 0x01];
    assert bs[1..] == [0xC0, 0x00, 0x02, 0x01];
    assert bs[1..][1..] == [0x00, 0x02, 0x01];
    assert bs[1..][1..][1..] == [0x02, 0x01];
    assert bs[1..][1..][1..][1..] == [0x01];
  }

  /** `%X` of the second test payload. */
  lemma ClassARouteHex()
    ensures UpperHexBytes([0x08, 0x0A, 0x0A, 0x00, 0x00, 0x01]) == "080A0A000001"
  {
    var bs: seq<byte> := [0x08, 0x0A, 0x0A, 0x00, 0x00, 0x01];
    assert bs[1..] == [0x0A, 0x0A, 0x00, 0x00, 0x01];
    assert bs[1..][1..] == [0x0A, 0x00, 0x00, 0x01];
    assert bs[1..][1..][1..] == [0x00, 0x00, 0x01];
    assert bs[1..][1..][1..][1..] == [0x00, 0x01];
    assert bs[1..][1..][1..][1..][1..] == [0x01];
  }

  /** `%X` of the third test payload. */
  lemma SubnetRouteHexOne()
    ensures UpperHexBytes([0x18, 0xC0, 0x00, 0x02, 0xC0, 0x00, 0x02, 0x01]) == "18C00002C0000201"
  {
    SubnetDestHex();
    GatewayOneHex();
    UpperHexBytesAppend([0x18, 0xC0, 0x00, 0x02], [0xC0, 0x00, 0x02, 0x01]);
    assert [0x18, 0xC0, 0x00, 0x02] + [0xC0, 0x00, 0x02, 0x01] == [0x18, 0xC0, 0x00, 0x02, 0xC0, 0x00, 0x02, 0x01];
  }

  /** `%X` of the second route of the fourth test payload. */
  lemma SubnetRouteHex()
    ensures UpperHexBytes([0x18, 0xC0, 0x00, 0x02, 0xC0, 0x00, 0x02, 0x6E]) == "18C00002C000026E"
  {
    SubnetDestHex();
    GatewayTwoHex();
    UpperHexBytesAppend([0x18, 0xC0, 0x00, 0x02], [0xC0, 0x00, 0x02, 0x6E]);
    assert [0x18, 0xC0, 0x00, 0x02] + [0xC0, 0x00, 0x02, 0x6E] == [0x18, 0xC0, 0x00, 0x02, 0xC0, 0x00, 0x02, 0x6E];
  }

  /** `%X` of the length byte and destination octets of 192.0.2.0/24. */
  lemma SubnetDestHex()
    ensures UpperHexBytes([0x18, 0xC0, 0x00, 0x02]) == "18C00002"
  {
    var bs: seq<byte> := [0x18, 0xC0, 0x00, 0x02];
    assert bs[1..] == [0xC0, 0x00, 0x02];
    assert bs[1..][1..] == [0x00, 0x02];
    assert bs[1..][1..][1..] == [0x02];
  }

  /** `%X` of the gateway 192.0.2.1. */
  lemma GatewayOneHex()
    ensures UpperHexBytes([0xC0, 0x00, 0x02, 0x01]) == "C0000201"
  {
    var bs: seq<byte> := [0xC0, 0x00, 0x02, 0x01];
    assert bs[1..] == [0x00, 0x02, 0x01];
    assert bs[1..][1..] == [0x02, 0x01];
    assert bs[1..][1..][1..] == [0x01];
  }

  /** `%X` of the gateway 192.0.2.110. */
  lemma GatewayTwoHex()
    ensures UpperHexBytes([0xC0, 0x00, 0x02, 0x6E]) == "C000026E"
  {
    var bs: seq<byte> := [0xC0, 0x00, 0x02, 0x6E];
    assert bs[1..] == [0x00, 0x02, 0x6E];
    assert bs[1..][1..] == [0x02, 0x6E];
    assert bs[1..][1..][1..] == [0x6E];
  }

  /** `%X` of two byte slices one after the other. */
  lemma {:induction false} UpperHexBytesAppend(a: seq<byte>, b: seq<byte>)
    ensures UpperHexBytes(a + b) == UpperHexBytes(a) + UpperHexBytes(b)
  {
    if a == [] {
      assert a + b == b;
    } else {
      assert (a + b)[0] == a[0] && (a + b)[1..] == a[1..] + b;
      UpperHexBytesAppend(a[1..], b);
    }
  }

  /** The first test case from its text: {"default": "192.0.2.1"} gives "00C0000201". */
  lemma DefaultRouteText()
    ensures Encoding(["default", "192.0.2.1"]) == Ok([0x00, 0xC0, 0x00, 0x02, 0x01])
    ensures ClasslessRoutesOutcome([(Str("default"), Str("192.0.2.1"))]) == Ok("00C0000201")
  {
    TestPrefixTexts();
    TestAddrTexts();
    PairParses("default", "192.0.2.1", Prefix(0, 0), 0xC000_0201);
    EncodingOnePair("default", "192.0.2.1");
    DefaultRouteVector();
    CollectOne("default", "192.0.2.1");
    DefaultRouteHex();
  }

  /** The second test case from its text: {"10.0.0.0/8": "10.0.0.1"} gives "080A0A000001". */
  lemma ClassARouteText()
    ensures Encoding(["10.0.0.0/8", "10.0.0.1"]) == Ok([0x08, 0x0A, 0x0A, 0x00, 0x00, 0x01])
    ensures ClasslessRoutesOutcome([(Str("10.0.0.0/8"), Str("10.0.0.1"))]) == Ok("080A0A000001")
  {
    TestPrefixTexts();
    TestAddrTexts();
    PairParses("10.0.0.0/8", "10.0.0.1", Prefix(0x0A00_0000, 8), 0x0A00_0001);
    EncodingOnePair("10.0.0.0/8", "10.0.0.1");
    ClassARouteVector();
    CollectOne("10.0.0.0/8", "10.0.0.1");
    ClassARouteHex();
  }

  /** The third test case from its text: {"192.0.2.0/24": "192.0.2.1"} gives "18C00002C0000201". */
  lemma SubnetRouteText()
    ensures Encoding(["192.0.2.0/24", "192.0.2.1"]) == Ok([0x18, 0xC0, 0x00, 0x02, 0xC0, 0x00, 0x02, 0x01])
    ensures ClasslessRoutesOutcome([(Str("192.0.2.0/24"), Str("192.0.2.1"))]) == Ok("18C00002C0000201")
  {
    TestPrefixTexts();
    TestAddrTexts();
    PairParses("192.0.2.0/24", "192.0.2.1", Prefix(0xC000_0200, 24), 0xC000_0201);
    EncodingOnePair("192.0.2.0/24", "192.0.2.1");
    SubnetRouteVectorOne();
    CollectOne("192.0.2.0/24", "192.0.2.1");
    SubnetRouteHexOne();
  }

  /** The fourth test case's list encodes as the default route then 192.0.2.0/24 via 192.0.2.110. */
  lemma TwoRoutesEncoding()
    ensures Encoding(["default", "192.0.2.1", "192.0.2.0/24", "192.0.2.110"]) ==
      Ok([0x00, 0xC0, 0x00, 0x02, 0x01] + [0x18, 0xC0, 0x00, 0x02, 0xC0, 0x00, 0x02, 0x6E])
  {
    TestPrefixTexts();
    TestAddrTexts();
    var r1, r2 := Route(Prefix(0, 0), 0xC000_0201), Route(Prefix(0xC000_0200, 24), 0xC000_026E);
    PairParses("default", "192.0.2.1", r1.net, r1.gw);
    PairParses("192.0.2.0/24", "192.0.2.110", r2.net, r2.gw);
    EncodingTwoPairs("default", "192.0.2.1", "192.0.2.0/24", "192.0.2.110", r1, r2);
    DefaultRouteVector();
    SubnetRouteVector();
  }

  /** The fourth test case's payload and text are the two routes' ones, one after the other. */
  lemma TwoRoutesJoin()
    ensures [0x00, 0xC0, 0x00, 0x02, 0x01] + [0x18, 0xC0, 0x00, 0x02, 0xC0, 0x00, 0x02, 0x6E] ==
      [0x00, 0xC0, 0x00, 0x02, 0x01, 0x18, 0xC0, 0x00, 0x02, 0xC0, 0x00, 0x02, 0x6E]
    ensures "00C0000201" + "18C00002C000026E" == "00C000020118C00002C000026E"
  {
  }

  /** The builtin's answer assembled from its three steps. */
  lemma OutcomeOfSteps(entries: seq<(Value, Value)>, routes: seq<string>, enc: seq<byte>, hex: string)
    requires Collect(entries) == Ok(routes) && Encoding(routes) == Ok(enc) && UpperHexBytes(enc) == hex
    ensures ClasslessRoutesOutcome(entries) == Ok(hex)
  {
  }

  /**
   * The fourth test case from its text: {"default": "192.0.2.1",
   * "192.0.2.0/24": "192.0.2.110"} gives "00C000020118C00002C000026E".
   */
  lemma TwoRoutesText()
    ensures Encoding(["default", "192.0.2.1", "192.0.2.0/24", "192.0.2.110"]) ==
      Ok([0x00, 0xC0, 0x00, 0x02, 0x01, 0x18, 0xC0, 0x00, 0x02, 0xC0, 0x00, 0x02, 0x6E])
    ensures ClasslessRoutesOutcome([(Str("default"), Str("192.0.2.1")), (Str("192.0.2.0/24"), Str("192.0.2.110"))]) ==
      Ok("00C000020118C00002C000026E")
  {
    var a: seq<byte>, b: seq<byte> := [0x00, 0xC0, 0x00, 0x02, 0x01], [0x18, 0xC0, 0x00, 0x02, 0xC0, 0x00, 0x02, 0x6E];
    TwoRoutesEncoding();
    TwoRoutesJoin();
    CollectTwo("default", "192.0.2.1", "192.0.2.0/24", "192.0.2.110");
    DefaultRouteHex();
    SubnetRouteHex();
    UpperHexBytesAppend(a, b);
    OutcomeOfSteps([(Str("default"), Str("192.0.2.1")), (Str("192.0.2.0/24"), Str("192.0.2.110"))],
      ["default", "192.0.2.1", "192.0.2.0/24", "192.0.2.110"], a + b, "00C000020118C00002C000026E");
  }
}
