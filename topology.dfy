/**
 * The lab topology a configuration script builds (nets.go, nodes.go):
 * subnets and NAT'ed "Outnets", routers, switches and assets, and the
 * interfaces that attach nodes to subnets. Subnets and nodes are objects the
 * script keeps references to and that later calls update in place (a node's
 * and a subnet's interface lists grow with every attachment, a node's name
 * and init script can be set), so they are classes; the default-name
 * counters are the package's global variables, gathered in `Counters`.
 */
module Topology {
  import opened Wrappers
  import opened Strconv
  import opened Ipv4
  import opened Paths
  import opened Starlark
  import GuestAgent

  /** `nodeRouter`, `nodeSwitch`, `nodeAsset`. */
  datatype NodeType = Router | Switch | Asset

  /** `dnsConfig`: the DNS server and search domain offered on a host network. */
  datatype Dns = Dns(server: string, domain: string)

  datatype Error =
    | NoNetwork                        // "no network address provided"
    | InvalidNetwork(network: string)  // "invalid network specification ..."
    | DomainWithoutServer
    | DnsOutsideHostNetwork
    | NameTooLong(name: string)        // "node names must be <8 characters"
    | TooManyInterfaces                // "only 9 interfaces can be added"
    | UnaddressedOutnetLink            // "Outnet links must be statically addressed"
    | LinkOnlyAddressing               // "network is link_only (does not allow addressing)"
    | HostAddress                      // "last address in host networks is always the host"
    | AddressOutside(a: Addr)          // "address ... not in subnet ..."
    | FrozenNode                       // "modified frozen data"
    | NoSuchAttr(field: string)
    | InitScriptNotString

  /** A given name, or else the default prefix followed by the counter in decimal. */
  function DefaultName(prefix: string, name: string, count: nat): string {
    if name == "" then prefix + FormatNat(count) else name
  }

  /** Two generated names with the same prefix differ when their counters differ. */
  lemma DefaultNamesDiffer(prefix: string, i: nat, j: nat)
    requires i != j
    ensures DefaultName(prefix, "", i) != DefaultName(prefix, "", j)
  {
    var a, b := DefaultName(prefix, "", i), DefaultName(prefix, "", j);
    assert a[|prefix|..] == FormatNat(i) && b[|prefix|..] == FormatNat(j);
    if a == b {
      FormatNatInjective(i, j);
    }
  }

  // ---------------------------------------------------------------------------
  // Subnets (nets.go)

  /** The fields of a `subnet` that are fixed when it is built. */
  datatype SubnetConfig = SubnetConfig(
    name: string, host: bool, nated: bool, linkOnly: bool, dns: Dns, network: Option<Prefix>)

  /** The prefix `netip.ParsePrefix` reads from `network`; `None` stands for the zero (invalid) `Prefix`. */
  function PrefixOf(network: string): Option<Prefix> {
    match ParsePrefix(network)
    case Ok(p) => Some(p)
    case Err(_) => None
  }

  /**
   * What `Subnet(...)` builds, given the network counter when it is called:
   * an empty network or an unparsable one is refused unless the subnet is
   * link-only, a DNS domain needs a DNS server, and a DNS server needs a
   * host network.
   */
  function SubnetOutcome(network: string, linkOnly: bool, name: string, host: bool, dns: Dns, count: nat): (r: Result<SubnetConfig, Error>)
    ensures r.Ok? <==>
      (linkOnly || (network != "" && ParsePrefix(network).Ok?)) &&
      (dns.domain != "" ==> dns.server != "") &&
      (dns.server != "" ==> host)
    ensures r.Ok? ==> !r.value.nated && r.value.linkOnly == linkOnly && r.value.host == host && r.value.dns == dns
    ensures r.Ok? ==> r.value.name == DefaultName("br", name, count) && r.value.network == PrefixOf(network)
    ensures r.Ok? && !linkOnly ==> r.value.network.Some?
  {
    if network == "" && !linkOnly then Err(NoNetwork)
    else if ParsePrefix(network).Err? && !linkOnly then Err(InvalidNetwork(network))
    else if dns.domain != "" && dns.server == "" then Err(DomainWithoutServer)
    else if dns.server != "" && !host then Err(DnsOutsideHostNetwork)
    else Ok(SubnetConfig(DefaultName("br", name, count), host, false, linkOnly, dns, PrefixOf(network)))
  }

  /** `defaultUserNet`: 169.254.254.0/24. */
  const DefaultUserNet := Prefix(0xA9FE_FE00, 24)

  /**
   * What `Outnet(...)` builds: always a NAT'ed host network, never link-only
   * and without DNS settings, on 169.254.254.0/24 unless a network is given.
   */
  function OutnetOutcome(name: string, network: string, count: nat): (r: Result<SubnetConfig, Error>)
    ensures r.Ok? <==> network == "" || ParsePrefix(network).Ok?
    ensures r.Ok? ==> r.value.nated && r.value.host && !r.value.linkOnly && r.value.dns == Dns("", "")
    ensures r.Ok? ==> r.value.name == DefaultName("dx", name, count)
    ensures r.Ok? ==> r.value.network == Some(if network == "" then DefaultUserNet else ParsePrefix(network).value)
  {
    if network == "" then
      Ok(SubnetConfig(DefaultName("dx", name, count), true, true, false, Dns("", ""), Some(DefaultUserNet)))
    else
      match ParsePrefix(network)
      case Err(_) => Err(InvalidNetwork(network))
      case Ok(p) => Ok(SubnetConfig(DefaultName("dx", name, count), true, true, false, Dns("", ""), Some(p)))
  }

  /**
   * What the `addr(num)` builtin of a subnet answers: link-only subnets have
   * no addresses; on a host network the index 2^(32-bits) - 2 is the host's;
   * otherwise the prefix address stepped forward `num` times, if that is
   * still inside the prefix.
   */
  function AddrOutcome(c: SubnetConfig, num: int): (r: Result<Addr, Error>)
    requires !c.linkOnly ==> c.network.Some?
    ensures c.linkOnly ==> r == Err(LinkOnlyAddressing)
    ensures r.Ok? ==> !c.linkOnly && Contains(c.network.value, r.value)
  {
    if c.linkOnly then Err(LinkOnlyAddressing)
    else
      var p := c.network.value;
      if c.host && num == BlockSize(p) - 2 then Err(HostAddress)
      else
        var a := Advance(V4(p.addr), num);
        if !Contains(p, a) then Err(AddressOutside(a)) else Ok(a)
  }

  /**
   * `addr(num)` answers the prefix address plus `num` (plus nothing for
   * `num <= 0`) exactly when the subnet is addressed, `num` is not the host's
   * index on a host network, and the sum stays inside the prefix.
   */
  lemma AddrOutcomeValue(c: SubnetConfig, num: int)
    requires !c.linkOnly ==> c.network.Some?
    ensures AddrOutcome(c, num).Ok? <==> (!c.linkOnly &&
      var p, k := c.network.value, if num <= 0 then 0 else num;
      !(c.host && num == BlockSize(p) - 2) && p.addr + k < 0x1_0000_0000 && Contains(p, V4(p.addr + k)))
    ensures AddrOutcome(c, num).Ok? ==>
      AddrOutcome(c, num).value == V4(c.network.value.addr + if num <= 0 then 0 else num)
  {
    if !c.linkOnly {
      var p := c.network.value;
      if num > 0 {
        AdvanceValue(p.addr, num);
      }
    }
  }

  /**
   * On a prefix written with its host bits clear, the addresses `addr` hands
   * out are those of index 0 to 2^(32-bits) - 1, but for the host's index on
   * a host network.
   */
  lemma AddrOutcomeRange(c: SubnetConfig, num: int)
    requires !c.linkOnly && c.network.Some?
    requires c.network.value.addr == Network(c.network.value)
    requires num >= 0
    ensures AddrOutcome(c, num).Ok? <==>
      num < BlockSize(c.network.value) && !(c.host && num == BlockSize(c.network.value) - 2)
  {
    var p := c.network.value;
    AddrOutcomeValue(c, num);
    NetworkFacts(p);
    if p.addr + num < 0x1_0000_0000 {
      ContainsRange(p, p.addr + num);
    }
  }

  /** The index a host network keeps back is that of `last`, the address the host takes. */
  lemma HostIndexIsLast(p: Prefix)
    requires p.addr == Network(p) && p.bits <= 31
    ensures Advance(V4(p.addr), BlockSize(p) - 2) == Last(p)
  {
    LastIsBroadcastMinusOne(p);
    NetworkFacts(p);
    Pow2Monotone(1, 32 - p.bits);
    assert Pow2(1) == 2;
    AdvanceValue(p.addr, BlockSize(p) - 2);
  }

  class Subnet {
    const name: string
    const host: bool
    const nated: bool
    const linkOnly: bool
    const dns: Dns
    const network: Option<Prefix>
    var frozen: bool
    var mbs: seq<Iface>

    function Config(): SubnetConfig {
      SubnetConfig(name, host, nated, linkOnly, dns, network)
    }

    /** An addressed subnet has a network, and every member interface points back at it. */
    ghost predicate Valid()
      reads this
    {
      (!linkOnly ==> network.Some?) && forall i | 0 <= i < |mbs| :: mbs[i].net == this
    }

    constructor (c: SubnetConfig)
      requires !c.linkOnly ==> c.network.Some?
      ensures Config() == c && mbs == [] && !frozen && Valid()
    {
      name, host, nated, linkOnly, dns, network := c.name, c.host, c.nated, c.linkOnly, c.dns, c.network;
      frozen := false;
      mbs := [];
    }

    method Freeze()
      modifies this`frozen
      ensures frozen
    {
      frozen := true;
    }

    /** The `addr(num)` builtin (`getaddr`): steps from the prefix address with `Next`, `num` times. */
    method GetAddr(num: int) returns (r: Result<Addr, Error>)
      requires !linkOnly ==> network.Some?
      ensures r == AddrOutcome(Config(), num)
    {
      if linkOnly {
        return Err(LinkOnlyAddressing);
      }
      var p := network.value;
      if host && num == BlockSize(p) - 2 {
        return Err(HostAddress);
      }
      var a := V4(p.addr);
      var k := 0;
      while k < num
        invariant 0 <= k && (num >= 0 ==> k <= num) && (num <= 0 ==> k == 0)
        invariant a == if p.addr + k < 0x1_0000_0000 then V4(p.addr + k) else Invalid
      {
        a := Next(a);
        k := k + 1;
      }
      AdvanceValue(p.addr, k);
      assert a == Advance(V4(p.addr), num) by {
        if num <= 0 {
          assert k == 0;
        } else {
          assert k == num;
        }
      }
      if !Contains(p, a) {
        return Err(AddressOutside(a));
      }
      return Ok(a);
    }
  }

  // ---------------------------------------------------------------------------
  // Nodes and interfaces (nodes.go)

  /** The name of a node's k-th interface: "eth<k>" on switches and assets, "ether<k+2>" on routers. */
  function IfaceName(t: NodeType, k: nat): (r: string)
    ensures |r| > 3 && r[..3] == "eth"
    ensures t == Router ==> |r| > 5 && r[..5] == "ether" && r[5..] == FormatNat(k + 2)
    ensures t != Router ==> r[3..] == FormatNat(k)
  {
    match t
    case Switch => "eth" + FormatNat(k)
    case Asset => "eth" + FormatNat(k)
    case Router => "ether" + FormatNat(k + 2)
  }

  /** The interfaces of one node have pairwise different names. */
  lemma IfaceNamesDiffer(t: NodeType, i: nat, j: nat)
    requires i != j
    ensures IfaceName(t, i) != IfaceName(t, j)
  {
    var a, b := IfaceName(t, i), IfaceName(t, j);
    var n := if t == Router then 5 else 3;
    assert a[n..] == FormatNat(if t == Router then i + 2 else i);
    assert b[n..] == FormatNat(if t == Router then j + 2 else j);
    if a == b {
      FormatNatInjective(if t == Router then i + 2 else i, if t == Router then j + 2 else j);
    }
  }

  /** `parseEther`: the number after "ether", as `strconv.Atoi` reads it. */
  function ParseEther(s: string): (r: (int, bool))
    ensures |s| < 5 || s[..5] != "ether" ==> r == (0, false)
  {
    if |s| < 5 || s[..5] != "ether" then (0, false) else Atoi(s[5..])
  }

  /** `parseEther` reads back the number in a router interface's name. */
  lemma ParseEtherRouterName(k: nat)
    requires k + 2 < Pow2(63)
    ensures ParseEther(IfaceName(Router, k)) == (k + 2, true)
  {
    var s := IfaceName(Router, k);
    assert s[..5] == "ether" && s[5..] == FormatNat(k + 2);
    AtoiFormatNat(k + 2);
  }

  /** Switch and asset interface names ("eth<k>") are not router names. */
  lemma ParseEtherSwitchName(t: NodeType, k: nat)
    requires t != Router
    ensures ParseEther(IfaceName(t, k)) == (0, false)
  {
    var s := IfaceName(t, k);
    var f := FormatNat(k);
    assert s == "eth" + f;
    if |s| >= 5 {
      assert s[3] == f[0] && IsDigit(f[0]);
    }
  }

  /** `agent`: routers speak the MikroTik dialect, switches and assets the CyberOS one. */
  function Agent(t: NodeType): (d: GuestAgent.Dialect)
    ensures d == GuestAgent.Chr <==> t == Router
  {
    match t
    case Router => GuestAgent.Chr
    case Switch => GuestAgent.Csw
    case Asset => GuestAgent.Csw
  }

  class Iface {
    const name: string
    const host: Netnode
    const net: Subnet
    const addr: Addr
    var frozen: bool

    constructor (name: string, host: Netnode, net: Subnet, addr: Addr)
      ensures this.name == name && this.host == host && this.net == net && this.addr == addr && !frozen
    {
      this.name, this.host, this.net, this.addr := name, host, net, addr;
      frozen := false;
    }
  }

  /** One entry of `TemplateNode.Interfaces`. */
  datatype TemplateIface = TemplateIface(name: string, address: Addr, network: Option<Prefix>, linkOnly: bool, nated: bool)

  /** `TemplateNode`: what a node's init template sees. */
  datatype TemplateNode = TemplateNode(name: string, image: string, interfaces: seq<TemplateIface>, pubKey: string)

  function TemplateEntry(ifc: Iface): TemplateIface {
    TemplateIface(ifc.name, ifc.addr, ifc.net.network, ifc.net.linkOnly, ifc.net.nated)
  }

  /** The template entries of an interface list, in order. */
  function TemplateEntries(ifcs: seq<Iface>): (r: seq<TemplateIface>)
    ensures |r| == |ifcs| && forall i | 0 <= i < |ifcs| :: r[i] == TemplateEntry(ifcs[i])
  {
    seq(|ifcs|, i requires 0 <= i < |ifcs| => TemplateEntry(ifcs[i]))
  }

  class Netnode {
    var name: string
    const kind: NodeType
    var frozen: bool
    const image: string
    const uefi: bool
    const media: string
    var init: string
    var ifcs: seq<Iface>

    /** At most 9 interfaces, each pointing back at this node and named after its position. */
    ghost predicate Valid()
      reads this
    {
      |ifcs| <= 9 && forall i | 0 <= i < |ifcs| :: ifcs[i].host == this && ifcs[i].name == IfaceName(kind, i)
    }

    constructor (name: string, kind: NodeType, image: string, uefi: bool, media: string)
      ensures this.name == name && this.kind == kind && this.image == image && this.uefi == uefi && this.media == media
      ensures init == "" && ifcs == [] && !frozen && Valid()
    {
      this.name, this.kind, this.image, this.uefi, this.media := name, kind, image, uefi, media;
      init := "";
      ifcs := [];
      frozen := false;
    }

    method Freeze()
      modifies this`frozen
      ensures frozen
    {
      frozen := true;
    }

    /**
     * `attach_nic(net, addr)`: refused once 9 interfaces are attached, and on
     * an Outnet without an address; otherwise a new interface named after
     * its position joins both the node's and the subnet's lists.
     */
    method AttachNic(net: Subnet, addr: Addr) returns (r: Result<Iface, Error>)
      requires Valid() && net.Valid()
      modifies this`ifcs, net`mbs
      ensures Valid() && net.Valid()
      ensures |old(ifcs)| == 9 ==> r == Err(TooManyInterfaces)
      ensures |old(ifcs)| < 9 && net.nated && !addr.V4? ==> r == Err(UnaddressedOutnetLink)
      ensures r.Err? ==> ifcs == old(ifcs) && net.mbs == old(net.mbs)
      ensures r.Ok? <==> |old(ifcs)| < 9 && (net.nated ==> addr.V4?)
      ensures r.Ok? ==>
        fresh(r.value) && r.value.name == IfaceName(kind, |old(ifcs)|) &&
        r.value.host == this && r.value.net == net && r.value.addr == addr &&
        ifcs == old(ifcs) + [r.value] && net.mbs == old(net.mbs) + [r.value]
    {
      if |ifcs| == 9 {
        return Err(TooManyInterfaces);
      }
      if net.nated && !addr.V4? {
        return Err(UnaddressedOutnetLink);
      }
      var ifname := match kind
        case Switch => "eth" + FormatNat(|ifcs|)
        case Asset => "eth" + FormatNat(|ifcs|)
        case Router => "ether" + FormatNat(|ifcs| + 2);
      var ifc := new Iface(ifname, this, net, addr);
      ifcs := ifcs + [ifc];
      net.mbs := net.mbs + [ifc];
      return Ok(ifc);
    }

    /**
     * `SetField`: a frozen node refuses every assignment; "name" takes the
     * value's printed form, "init_script" only a string, and any other field
     * is refused.
     */
    method SetField(field: string, val: Value) returns (err: Option<Error>)
      modifies this`name, this`init
      ensures frozen ==> err == Some(FrozenNode)
      ensures !frozen && field == "name" ==> err == None && name == Repr(val)
      ensures !frozen && field == "init_script" && val.Str? ==> err == None && init == val.s
      ensures !frozen && field == "init_script" && !val.Str? ==> err == Some(InitScriptNotString)
      ensures !frozen && field != "name" && field != "init_script" ==> err == Some(NoSuchAttr(field))
      ensures err.Some? || field != "name" ==> name == old(name)
      ensures err.Some? || field != "init_script" ==> init == old(init)
    {
      if frozen {
        return Some(FrozenNode);
      }
      if field == "name" {
        name := Repr(val);
      } else if field == "init_script" {
        if !val.Str? {
          return Some(InitScriptNotString);
        }
        init := val.s;
      } else {
        return Some(NoSuchAttr(field));
      }
      return None;
    }

    /** `ToTemplate`, with the freshly generated public key passed in. */
    method ToTemplate(pubKey: string) returns (t: TemplateNode)
      ensures t == TemplateNode(name, "", TemplateEntries(ifcs), pubKey)
      ensures Valid() ==> forall i | 0 <= i < |ifcs| :: t.interfaces[i].name == IfaceName(kind, i)
    {
      var entries: seq<TemplateIface> := [];
      for i := 0 to |ifcs|
        invariant |entries| == i
        invariant forall j | 0 <= j < i :: entries[j] == TemplateEntry(ifcs[j])
      {
        entries := entries + [TemplateEntry(ifcs[i])];
      }
      t := TemplateNode(name, "", entries, pubKey);
      assert entries == TemplateEntries(ifcs);
    }
  }

  // ---------------------------------------------------------------------------
  // Constructors and their default-name counters

  /** The prefix of a node's default name: "r" for routers and switches, "a" for assets. */
  function NodePrefix(t: NodeType): string {
    if t == Asset then "a" else "r"
  }

  /** The name a node constructor settles on: names over 8 bytes (Go's `len`) are refused. */
  function NodeName(t: NodeType, name: string, count: nat): (r: Result<string, Error>)
    ensures r.Err? <==> Utf8Len(name) > 8
    ensures r.Ok? ==> r.value == DefaultName(NodePrefix(t), name, count) && 0 < |r.value|
  {
    if Utf8Len(name) > 8 then Err(NameTooLong(name))
    else Ok(DefaultName(NodePrefix(t), name, count))
  }

  /** A name of 8 characters is refused when one of them takes two bytes: "routeür1" is 9 bytes long. */
  lemma MultiByteNameRefused(t: NodeType, count: nat)
    ensures |"routeür1"| == 8 && NodeName(t, "routeür1", count).Err?
  {
    assert "routeür1" == "route" + "ü" + "r1";
    Utf8LenAppend("route" + "ü", "r1");
    Utf8LenAppend("route", "ü");
    AsciiLen("route");
    AsciiLen("r1");
    assert Utf8Len("ü") == Utf8Len([]) + Utf8Width('ü') == 2;
  }

  /**
   * The image a switch is built with. As written, a relative path (the empty
   * one included) is joined to the working directory, so a switch built
   * without an image gets the working directory itself.
   */
  function SwitchImageAsWritten(image: string, wd: string): (r: string)
    ensures IsAbs(image) ==> r == image
    ensures IsAbs(wd) ==> IsAbs(r)
    ensures image == "" ==> r == wd
  {
    if IsAbs(image) then image else JoinPath(wd, image)
  }

  /** With a working directory, a switch built without an image never has an empty image. */
  lemma SwitchImageNeverEmpty(wd: string)
    requires wd != ""
    ensures SwitchImageAsWritten("", wd) == wd && SwitchImageAsWritten("", wd) != ""
  {
  }

  /** The image a switch is built with, leaving "no image" empty so that the default image applies. */
  function SwitchImage(image: string, wd: string): (r: string)
    ensures r == "" <==> image == ""
    ensures image != "" ==> r == SwitchImageAsWritten(image, wd)
  {
    if image == "" then "" else SwitchImageAsWritten(image, wd)
  }

  class Counters {
    var netCount: nat
    var routerCount: nat
    var assetCount: nat

    /** All three counters start at 1. */
    constructor ()
      ensures netCount == 1 && routerCount == 1 && assetCount == 1
    {
      netCount, routerCount, assetCount := 1, 1, 1;
    }

    /**
     * `Subnet(...)` (`NewSubnet`). The counter is taken for a default name
     * before the network and DNS settings are checked, so a call that then
     * fails still uses up a number.
     */
    method NewSubnet(network: string, linkOnly: bool, name: string, host: bool, dns: Dns) returns (r: Result<Subnet, Error>)
      modifies this`netCount
      ensures netCount == old(netCount) + if name == "" && (network != "" || linkOnly) then 1 else 0
      ensures r.Err? ==> SubnetOutcome(network, linkOnly, name, host, dns, old(netCount)) == Err(r.error)
      ensures r.Ok? ==> SubnetOutcome(network, linkOnly, name, host, dns, old(netCount)) == Ok(r.value.Config())
      ensures r.Ok? ==> fresh(r.value) && r.value.mbs == [] && !r.value.frozen && r.value.Valid()
    {
      if network == "" && !linkOnly {
        return Err(NoNetwork);
      }
      var n := name;
      if n == "" {
        n := "br" + FormatNat(netCount);
        netCount := netCount + 1;
      }
      var sub := ParsePrefix(network);
      if sub.Err? && !linkOnly {
        return Err(InvalidNetwork(network));
      }
      if dns.domain != "" && dns.server == "" {
        return Err(DomainWithoutServer);
      }
      if dns.server != "" && !host {
        return Err(DnsOutsideHostNetwork);
      }
      var s := new Subnet(SubnetConfig(n, host, false, linkOnly, dns, PrefixOf(network)));
      return Ok(s);
    }

    /** `Outnet(...)` (`NewNATLAN`): the counter is taken for a default name before the network is parsed. */
    method NewOutnet(name: string, network: string) returns (r: Result<Subnet, Error>)
      modifies this`netCount
      ensures netCount == old(netCount) + if name == "" then 1 else 0
      ensures r.Err? ==> OutnetOutcome(name, network, old(netCount)) == Err(r.error)
      ensures r.Ok? ==> OutnetOutcome(name, network, old(netCount)) == Ok(r.value.Config())
      ensures r.Ok? ==> fresh(r.value) && r.value.mbs == [] && !r.value.frozen && r.value.Valid()
    {
      var n := name;
      if n == "" {
        n := "dx" + FormatNat(netCount);
        netCount := netCount + 1;
      }
      var sub := DefaultUserNet;
      if network != "" {
        var parsed := ParsePrefix(network);
        if parsed.Err? {
          return Err(InvalidNetwork(network));
        }
        sub := parsed.value;
      }
      var s := new Subnet(SubnetConfig(n, true, true, false, Dns("", ""), Some(sub)));
      return Ok(s);
    }

    /** `Router(name=...)`. */
    method NewRouter(name: string) returns (r: Result<Netnode, Error>)
      modifies this`routerCount
      ensures routerCount == old(routerCount) + if name == "" then 1 else 0
      ensures r.Err? ==> NodeName(Router, name, old(routerCount)) == Err(r.error)
      ensures r.Ok? ==> NodeName(Router, name, old(routerCount)) == Ok(r.value.name)
      ensures r.Ok? ==> fresh(r.value) && r.value.kind == Router && r.value.image == "" && !r.value.uefi && r.value.media == ""
      ensures r.Ok? ==> r.value.ifcs == [] && r.value.init == "" && !r.value.frozen && r.value.Valid()
    {
      var n := name;
      if Utf8Len(n) > 8 {
        return Err(NameTooLong(n));
      } else if n == "" {
        n := "r" + FormatNat(routerCount);
        routerCount := routerCount + 1;
      }
      var node := new Netnode(n, Router, "", false, "");
      return Ok(node);
    }

    /** `CyberSwitch(name=..., image=..., media=...)`, with the script's working directory `wd`. */
    method NewSwitch(name: string, image: string, media: string, wd: string) returns (r: Result<Netnode, Error>)
      modifies this`routerCount
      ensures routerCount == old(routerCount) + if name == "" then 1 else 0
      ensures r.Err? ==> NodeName(Switch, name, old(routerCount)) == Err(r.error)
      ensures r.Ok? ==> NodeName(Switch, name, old(routerCount)) == Ok(r.value.name)
      ensures r.Ok? ==> fresh(r.value) && r.value.kind == Switch && r.value.image == SwitchImage(image, wd) && r.value.uefi && r.value.media == media
      ensures r.Ok? ==> r.value.ifcs == [] && r.value.init == "" && !r.value.frozen && r.value.Valid()
    {
      var n := name;
      if Utf8Len(n) > 8 {
        return Err(NameTooLong(n));
      } else if n == "" {
        n := "r" + FormatNat(routerCount);
        routerCount := routerCount + 1;
      }
      var img := image;
      if img != "" && !IsAbs(img) {
        img := JoinPath(wd, img);
      }
      var node := new Netnode(n, Switch, img, true, media);
      return Ok(node);
    }

    /** `Asset(name=...)`. */
    method NewAsset(name: string) returns (r: Result<Netnode, Error>)
      modifies this`assetCount
      ensures assetCount == old(assetCount) + if name == "" then 1 else 0
      ensures r.Err? ==> NodeName(Asset, name, old(assetCount)) == Err(r.error)
      ensures r.Ok? ==> NodeName(Asset, name, old(assetCount)) == Ok(r.value.name)
      ensures r.Ok? ==> fresh(r.value) && r.value.kind == Asset && r.value.image == "" && r.value.uefi && r.value.media == ""
      ensures r.Ok? ==> r.value.ifcs == [] && r.value.init == "" && !r.value.frozen && r.value.Valid()
    {
      if Utf8Len(name) > 8 {
        return Err(NameTooLong(name));
      }
      var n := name;
      if n == "" {
        n := "a" + FormatNat(assetCount);
        assetCount := assetCount + 1;
      }
      var node := new Netnode(n, Asset, "", true, "");
      return Ok(node);
    }
  }

  // ---------------------------------------------------------------------------
  // nodesof, nomatch and netsof

  /** `nomatch`: no filter accepts `v`. */
  function NoMatch<T>(fs: seq<T -> bool>, v: T): (r: bool)
    ensures r <==> forall i | 0 <= i < |fs| :: !fs[i](v)
  {
    if fs == [] then true
    else if fs[0](v) then false
    else NoMatch(fs[1..], v)
  }

  /** `OfType`: the filter that accepts the nodes of one type. */
  function OfType(t: NodeType): Netnode -> bool {
    (n: Netnode) => n.kind == t
  }

  /** A value bound in the configuration script: a node, or anything else. */
  datatype Global = NodeValue(node: Netnode) | OtherValue

  /** The nodes among `vals`, in order, that `keep` accepts. */
  function Select(vals: seq<Global>, keep: Netnode -> bool): (r: seq<Netnode>)
    ensures forall n | n in r :: keep(n) && NodeValue(n) in vals
    ensures forall i | 0 <= i < |vals| :: vals[i].NodeValue? && keep(vals[i].node) ==> vals[i].node in r
    ensures |r| <= |vals|
  {
    if vals == [] then []
    else (if vals[0].NodeValue? && keep(vals[0].node) then [vals[0].node] else []) + Select(vals[1..], keep)
  }

  /** Walking two lists one after the other yields the nodes of the first, then those of the second. */
  lemma {:induction false} SelectAppend(a: seq<Global>, b: seq<Global>, keep: Netnode -> bool)
    ensures Select(a + b, keep) == Select(a, keep) + Select(b, keep)
  {
    if a == [] {
      assert a + b == b;
    } else {
      assert (a + b)[0] == a[0] && (a + b)[1..] == a[1..] + b;
      SelectAppend(a[1..], b, keep);
    }
  }

  /** A single walked value yields its node exactly when it is an accepted node. */
  lemma SelectOne(v: Global, keep: Netnode -> bool)
    ensures Select([v], keep) == if v.NodeValue? && keep(v.node) then [v.node] else []
  {
    assert [v][1..] == [];
  }

  /** The values `nodesof` walks: the `boot_order` list when the script sets one, else every global. */
  function Walked(globals: seq<Global>, bootOrder: Option<seq<Global>>): seq<Global> {
    if bootOrder.Some? then bootOrder.value else globals
  }

  /** `nodesof` as written: a node is skipped when `nomatch` holds for it. */
  function NodesOfAsWritten(globals: seq<Global>, bootOrder: Option<seq<Global>>, fs: seq<Netnode -> bool>): (r: seq<Netnode>)
    ensures forall n | n in r :: !NoMatch(fs, n) && NodeValue(n) in Walked(globals, bootOrder)
  {
    Select(Walked(globals, bootOrder), (n: Netnode) => !NoMatch(fs, n))
  }

  /** As written, `nodesof` without filters yields no node at all. */
  lemma NodesOfAsWrittenNoFilters(globals: seq<Global>, bootOrder: Option<seq<Global>>)
    ensures NodesOfAsWritten(globals, bootOrder, []) == []
  {
    SelectNone(Walked(globals, bootOrder), (n: Netnode) => !NoMatch([], n));
  }

  lemma {:induction false} SelectNone(vals: seq<Global>, keep: Netnode -> bool)
    requires forall n :: !keep(n)
    ensures Select(vals, keep) == []
  {
    if vals != [] {
      SelectNone(vals[1..], keep);
    }
  }

  /** A node is taken when no filter is given, or when some filter accepts it. */
  predicate Wanted(fs: seq<Netnode -> bool>, n: Netnode) {
    fs == [] || !NoMatch(fs, n)
  }

  /**
   * `nodesof`, with an empty filter list read as "every node", as its
   * documentation and `netsof` take it.
   */
  function NodesOf(globals: seq<Global>, bootOrder: Option<seq<Global>>, fs: seq<Netnode -> bool>): (r: seq<Netnode>)
    ensures forall n | n in r :: Wanted(fs, n) && NodeValue(n) in Walked(globals, bootOrder)
  {
    Select(Walked(globals, bootOrder), (n: Netnode) => Wanted(fs, n))
  }

  /** Without filters, `NodesOf` yields every node it walks, in order. */
  lemma {:induction false} SelectAll(vals: seq<Global>, keep: Netnode -> bool)
    requires forall n :: keep(n)
    ensures Select(vals, keep) == AllNodes(vals)
  {
    if vals != [] {
      SelectAll(vals[1..], keep);
    }
  }

  /** The nodes among `vals`, in order. */
  function AllNodes(vals: seq<Global>): seq<Netnode> {
    if vals == [] then []
    else (if vals[0].NodeValue? then [vals[0].node] else []) + AllNodes(vals[1..])
  }

  lemma NodesOfNoFilters(globals: seq<Global>, bootOrder: Option<seq<Global>>)
    ensures NodesOf(globals, bootOrder, []) == AllNodes(Walked(globals, bootOrder))
  {
    SelectAll(Walked(globals, bootOrder), (n: Netnode) => Wanted([], n));
  }

  /** With at least one filter, `NodesOf` and the code as written agree. */
  lemma {:induction false} NodesOfWithFilters(globals: seq<Global>, bootOrder: Option<seq<Global>>, fs: seq<Netnode -> bool>)
    requires fs != []
    ensures NodesOf(globals, bootOrder, fs) == NodesOfAsWritten(globals, bootOrder, fs)
  {
    SelectSame(Walked(globals, bootOrder), (n: Netnode) => Wanted(fs, n), (n: Netnode) => !NoMatch(fs, n));
  }

  lemma {:induction false} SelectSame(vals: seq<Global>, k1: Netnode -> bool, k2: Netnode -> bool)
    requires forall n :: k1(n) == k2(n)
    ensures Select(vals, k1) == Select(vals, k2)
  {
    if vals != [] {
      SelectSame(vals[1..], k1, k2);
    }
  }

  /** `s` holds no element twice. */
  predicate Distinct<T(==)>(s: seq<T>) {
    forall i, j | 0 <= i < j < |s| :: s[i] != s[j]
  }

  /** The position of the first `x` in `s`. */
  function FirstIndex<T(==)>(s: seq<T>, x: T): (k: nat)
    requires x in s
    ensures k < |s| && s[k] == x && x !in s[..k]
  {
    if s[0] == x then 0 else 1 + FirstIndex(s[1..], x)
  }

  /** `s` with every element after its first occurrence dropped. */
  function Dedup<T(==)>(s: seq<T>): (r: seq<T>)
    ensures forall i | 0 <= i < |r| :: r[i] in s
    ensures forall i | 0 <= i < |s| :: s[i] in r
    ensures Distinct(r)
  {
    if s == [] then []
    else
      var p, x := s[..|s| - 1], s[|s| - 1];
      assert s == p + [x];
      var d := Dedup(p);
      if x in d then d else d + [x]
  }

  /** `Dedup` keeps elements in the order of their first occurrence. */
  lemma {:induction false} DedupOrder<T>(s: seq<T>)
    ensures var r := Dedup(s); forall i, j | 0 <= i < j < |r| :: FirstIndex(s, r[i]) < FirstIndex(s, r[j])
  {
    if s != [] {
      var p, x := s[..|s| - 1], s[|s| - 1];
      assert s == p + [x];
      DedupOrder(p);
      var d, r := Dedup(p), Dedup(s);
      if x in d {
        assert r == d;
        forall i, j | 0 <= i < j < |r|
          ensures FirstIndex(s, r[i]) < FirstIndex(s, r[j])
        {
          DedupIn(p, d, i);
          DedupIn(p, d, j);
          FirstIndexPrefix(p, [x], d[i]);
          FirstIndexPrefix(p, [x], d[j]);
        }
      } else {
        assert r == d + [x];
        forall i, j | 0 <= i < j < |r|
          ensures FirstIndex(s, r[i]) < FirstIndex(s, r[j])
        {
          DedupIn(p, d, i);
          FirstIndexPrefix(p, [x], d[i]);
          if j < |d| {
            DedupIn(p, d, j);
            FirstIndexPrefix(p, [x], d[j]);
          } else {
            FirstIndexLast(p, x);
          }
        }
      }
    }
  }

  lemma DedupIn<T>(p: seq<T>, d: seq<T>, i: int)
    requires d == Dedup(p) && 0 <= i < |d|
    ensures d[i] in p && FirstIndex(p, d[i]) < |p|
  {
  }

  lemma {:induction false} FirstIndexPrefix<T>(p: seq<T>, q: seq<T>, y: T)
    requires y in p
    ensures FirstIndex(p + q, y) == FirstIndex(p, y)
  {
    if p[0] != y {
      assert (p + q)[1..] == p[1..] + q;
      FirstIndexPrefix(p[1..], q, y);
    }
  }

  lemma {:induction false} FirstIndexLast<T>(p: seq<T>, x: T)
    requires x !in p
    ensures FirstIndex(p + [x], x) == |p|
  {
    if p != [] {
      assert (p + [x])[1..] == p[1..] + [x];
      FirstIndexLast(p[1..], x);
    }
  }

  /** The subnets an interface list attaches to, in order. */
  function NetsOfIfcs(ifcs: seq<Iface>): (r: seq<Subnet>)
    ensures |r| == |ifcs| && forall i | 0 <= i < |ifcs| :: r[i] == ifcs[i].net
  {
    seq(|ifcs|, i requires 0 <= i < |ifcs| => ifcs[i].net)
  }

  lemma NetsOfIfcsSnoc(ifcs: seq<Iface>, j: int)
    requires 0 <= j < |ifcs|
    ensures NetsOfIfcs(ifcs[..j + 1]) == NetsOfIfcs(ifcs[..j]) + [ifcs[j].net]
  {
    assert ifcs[..j + 1][j] == ifcs[j];
  }

  /** `Dedup` grows by one element when that element is new, and stays put otherwise. */
  lemma DedupSnoc<T>(q: seq<T>, x: T)
    ensures Dedup(q + [x]) == if x in Dedup(q) then Dedup(q) else Dedup(q) + [x]
  {
    assert (q + [x])[..|q|] == q;
  }

  /** The subnets the nodes attach to, node by node and interface by interface. */
  function Attached(nodes: seq<Netnode>): seq<Subnet>
    reads set n | n in nodes
  {
    if nodes == [] then [] else Attached(nodes[..|nodes| - 1]) + NetsOfIfcs(nodes[|nodes| - 1].ifcs)
  }

  lemma AttachedSnoc(nodes: seq<Netnode>, i: int)
    requires 0 <= i < |nodes|
    ensures Attached(nodes[..i + 1]) == Attached(nodes[..i]) + NetsOfIfcs(nodes[i].ifcs)
  {
    assert nodes[..i + 1][..i] == nodes[..i];
  }

  /**
   * `netsof`: every subnet attached to some node `nodesof` yields (without
   * filters), once each, in the order of first attachment.
   */
  method NetsOf(globals: seq<Global>, bootOrder: Option<seq<Global>>) returns (nets: seq<Subnet>)
    ensures nets == Dedup(Attached(NodesOf(globals, bootOrder, [])))
  {
    var nodes := NodesOf(globals, bootOrder, []);
    nets := [];
    assert nodes[..0] == [];
    for i := 0 to |nodes|
      invariant nets == Dedup(Attached(nodes[..i]))
    {
      var ifcs := nodes[i].ifcs;
      ghost var before := Attached(nodes[..i]);
      assert before + NetsOfIfcs(ifcs[..0]) == before;
      for j := 0 to |ifcs|
        invariant nets == Dedup(before + NetsOfIfcs(ifcs[..j]))
        invariant before == Attached(nodes[..i]) && ifcs == nodes[i].ifcs
      {
        var n := ifcs[j].net;
        NetsOfIfcsSnoc(ifcs, j);
        assert before + NetsOfIfcs(ifcs[..j + 1]) == (before + NetsOfIfcs(ifcs[..j])) + [n];
        DedupSnoc(before + NetsOfIfcs(ifcs[..j]), n);
        if n !in nets {
          nets := nets + [n];
        }
      }
      assert ifcs[..|ifcs|] == ifcs;
      assert nets == Dedup(before + NetsOfIfcs(ifcs));
      AttachedSnoc(nodes, i);
      assert before + NetsOfIfcs(ifcs) == Attached(nodes[..i + 1]);
    }
    assert nodes[..|nodes|] == nodes;
  }

  /** As written, `netsof` walks the nodes `nodesof` yields without filters, so it yields no subnet at all. */
  lemma NetsOfAsWrittenEmpty(globals: seq<Global>, bootOrder: Option<seq<Global>>)
    ensures Dedup(Attached(NodesOfAsWritten(globals, bootOrder, []))) == []
  {
    NodesOfAsWrittenNoFilters(globals, bootOrder);
  }
}
