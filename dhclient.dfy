// The DHCP client run inside an asset's namespace: which options of the
// acknowledged lease it applies, and the resolver configuration it writes.

module Dhclient {
  import opened Wrappers
  import opened Strconv
  import opened Ipv4

  // ---------------------------------------------------------------------------
  // Resolver configuration text

  /** `strings.Join(sl, " ")`: the empty string for an empty list. */
  function JoinWords(sl: seq<string>): string {
    if sl == [] then "" else Join(sl, ' ')
  }

  function DomainLines(domain: string): seq<string> {
    if domain != "" then ["domain " + domain] else []
  }

  function NameserverLine(ip: u32): string {
    "nameserver " + FormatAddr(V4(ip))
  }

  function NameserverLines(ns: seq<u32>): (r: seq<string>)
    ensures |r| == |ns|
  {
    seq(|ns|, i requires 0 <= i < |ns| => NameserverLine(ns[i]))
  }

  /** A nil list writes no search line; any other list, even an empty one, writes one. */
  function SearchLines(sl: Option<seq<string>>): seq<string> {
    if sl.Some? then ["search " + JoinWords(sl.value)] else []
  }

  /**
   * The lines of the resolver configuration, without their newlines: one for
   * a non-empty domain, one per server, and one for a non-nil search list.
   */
  function ResolvLines(ns: seq<u32>, sl: Option<seq<string>>, domain: string): (r: seq<string>)
    ensures |r| == (if domain != "" then 1 else 0) + |ns| + (if sl.Some? then 1 else 0)
  {
    DomainLines(domain) + NameserverLines(ns) + SearchLines(sl)
  }

  /** Each line followed by a newline, and nothing else. */
  function Terminated(lines: seq<string>): string {
    if lines == [] then "" else lines[0] + "\n" + Terminated(lines[1..])
  }

  lemma {:induction false} TerminatedAppend(a: seq<string>, b: seq<string>)
    ensures Terminated(a + b) == Terminated(a) + Terminated(b)
    decreases |a|
  {
    if a == [] {
      assert a + b == b;
    } else {
      assert (a + b)[1..] == a[1..] + b;
      TerminatedAppend(a[1..], b);
    }
  }

  /** An in-memory buffer that text is appended to. */
  class Buffer {
    var data: string

    constructor ()
      ensures data == []
    {
      data := [];
    }

    method WriteString(s: string)
      modifies this
      ensures data == old(data) + s
    {
      data := data + s;
    }
  }

  /**
   * The text written to the resolver configuration file: an optional domain
   * line, one nameserver line per server in order, an optional search line.
   */
  method WriteDNSSettings(ns: seq<u32>, sl: Option<seq<string>>, domain: string) returns (rc: string)
    ensures rc == Terminated(ResolvLines(ns, sl, domain))
  {
    var buf := new Buffer();
    if domain != "" {
      buf.WriteString("domain " + domain + "\n");
    }
    DomainStep(domain);
    for i := 0 to |ns|
      invariant buf.data == Terminated(DomainLines(domain) + NameserverLines(ns[..i]))
    {
      buf.WriteString("nameserver " + FormatAddr(V4(ns[i])) + "\n");
      NameserverStep(domain, ns, i);
    }
    assert ns[..|ns|] == ns;
    if sl.Some? {
      buf.WriteString("search ");
      buf.WriteString(JoinWords(sl.value));
      buf.WriteString("\n");
    }
    SearchStep(DomainLines(domain) + NameserverLines(ns), sl);
    rc := buf.data;
  }

  lemma TerminatedSnoc(a: seq<string>, l: string)
    ensures Terminated(a + [l]) == Terminated(a) + (l + "\n")
  {
    TerminatedAppend(a, [l]);
    assert Terminated([l]) == l + "\n" + Terminated([]);
    assert l + "\n" + [] == l + "\n";
  }

  lemma DomainStep(domain: string)
    ensures Terminated(DomainLines(domain) + NameserverLines([]))
      == if domain != "" then [] + ("domain " + domain + "\n") else []
  {
    assert DomainLines(domain) + NameserverLines([]) == DomainLines(domain);
    if domain != "" {
      TerminatedSnoc([], "domain " + domain);
      assert [] + ["domain " + domain] == DomainLines(domain);
    }
  }

  lemma NameserverStep(domain: string, ns: seq<u32>, i: nat)
    requires i < |ns|
    ensures Terminated(DomainLines(domain) + NameserverLines(ns[..i + 1]))
      == Terminated(DomainLines(domain) + NameserverLines(ns[..i])) + ("nameserver " + FormatAddr(V4(ns[i])) + "\n")
  {
    var a, b := DomainLines(domain), NameserverLines(ns[..i]);
    var l := NameserverLine(ns[i]);
    NameserverLinesSnoc(ns, i);
    Assoc(a, b, [l]);
    TerminatedSnoc(a + b, l);
  }

  lemma NameserverLinesSnoc(ns: seq<u32>, i: nat)
    requires i < |ns|
    ensures NameserverLines(ns[..i + 1]) == NameserverLines(ns[..i]) + [NameserverLine(ns[i])]
  {
  }

  lemma SuffixOf<T>(a: seq<T>, b: seq<T>)
    ensures |a + b| >= |b| && (a + b)[|a + b| - |b|..] == b
  {
  }

  lemma SearchStep(a: seq<string>, sl: Option<seq<string>>)
    ensures Terminated(a + SearchLines(sl))
      == if sl.Some? then Terminated(a) + "search " + JoinWords(sl.value) + "\n" else Terminated(a)
  {
    if sl.Some? {
      TerminatedSnoc(a, "search " + JoinWords(sl.value));
      Assoc3(Terminated(a), "search ", JoinWords(sl.value), "\n");
    } else {
      assert a + [] == a;
    }
  }

  lemma Assoc3<T>(a: seq<T>, b: seq<T>, c: seq<T>, d: seq<T>)
    ensures a + (b + c + d) == a + b + c + d
  {
  }

  // ---------------------------------------------------------------------------
  // Properties of the resolver configuration

  /**
   * The domain line comes first and only for a non-empty domain; the
   * nameserver lines follow in lease order; the search line comes last and
   * only for a non-nil list.
   */
  lemma ResolvLayout(ns: seq<u32>, sl: Option<seq<string>>, domain: string)
    ensures |ResolvLines(ns, sl, domain)| == |DomainLines(domain)| + |ns| + |SearchLines(sl)|
    ensures |DomainLines(domain)| == if domain != "" then 1 else 0
    ensures |SearchLines(sl)| == if sl.Some? then 1 else 0
    ensures domain != "" ==> ResolvLines(ns, sl, domain)[0] == "domain " + domain
    ensures forall i :: 0 <= i < |ns| ==> ResolvLines(ns, sl, domain)[|DomainLines(domain)| + i] == NameserverLine(ns[i])
    ensures sl.Some? ==> ResolvLines(ns, sl, domain)[|ResolvLines(ns, sl, domain)| - 1] == "search " + JoinWords(sl.value)
  {
    var d, n, s := DomainLines(domain), NameserverLines(ns), SearchLines(sl);
    Parts(d, n, s);
    assert forall i :: 0 <= i < |ns| ==> n[i] == NameserverLine(ns[i]);
  }

  /** Where the elements of three concatenated parts end up. */
  lemma Parts<T>(a: seq<T>, b: seq<T>, c: seq<T>)
    ensures |a + b + c| == |a| + |b| + |c|
    ensures forall i :: 0 <= i < |b| ==> (a + b + c)[|a| + i] == b[i]
    ensures a + b + c != [] ==>
      (a + b + c)[0] == (if a != [] then a[0] else if b != [] then b[0] else c[0])
    ensures a + b + c != [] ==>
      (a + b + c)[|a + b + c| - 1] == (if c != [] then c[|c| - 1] else if b != [] then b[|b| - 1] else a[|a| - 1])
  {
  }

  /** Each kind of line starts with its own keyword. */
  function Keyword(l: string): char {
    if l == [] then ' ' else l[0]
  }

  lemma DomainKeyword(domain: string)
    ensures Keyword("domain " + domain) == 'd'
  {
  }

  lemma NameserverKeyword(ip: u32)
    ensures Keyword(NameserverLine(ip)) == 'n'
  {
  }

  lemma SearchKeyword(words: string)
    ensures Keyword("search " + words) == 's'
  {
  }

  /** The file opens with a domain line exactly when the domain is non-empty. */
  lemma DomainLineIff(ns: seq<u32>, sl: Option<seq<string>>, domain: string)
    ensures var ls := ResolvLines(ns, sl, domain);
      (ls != [] && Keyword(ls[0]) == 'd') <==> domain != ""
  {
    var d, n, s := DomainLines(domain), NameserverLines(ns), SearchLines(sl);
    Parts(d, n, s);
    if domain != "" {
      DomainKeyword(domain);
    } else if ns != [] {
      NameserverKeyword(ns[0]);
    } else if sl.Some? {
      SearchKeyword(JoinWords(sl.value));
    }
  }

  /** The file closes with a search line exactly when the list is non-nil. */
  lemma SearchLineIff(ns: seq<u32>, sl: Option<seq<string>>, domain: string)
    ensures var ls := ResolvLines(ns, sl, domain);
      (ls != [] && Keyword(ls[|ls| - 1]) == 's') <==> sl.Some?
  {
    var d, n, s := DomainLines(domain), NameserverLines(ns), SearchLines(sl);
    Parts(d, n, s);
    if sl.Some? {
      SearchKeyword(JoinWords(sl.value));
    } else if ns != [] {
      NameserverKeyword(ns[|ns| - 1]);
    } else if domain != "" {
      DomainKeyword(domain);
    }
  }

  /** A non-nil empty list still writes a search line with nothing after the keyword. */
  lemma EmptySearchList(ns: seq<u32>, domain: string)
    ensures var t := Terminated(ResolvLines(ns, Some([]), domain));
      |t| >= 8 && t[|t| - 8..] == "search \n"
  {
    var a := DomainLines(domain) + NameserverLines(ns);
    SearchStep(a, Some([]));
    var pre := Terminated(a);
    assert JoinWords([]) == [];
    assert pre + "search " + [] == pre + "search ";
    Assoc(pre, "search ", "\n");
    assert "search " + "\n" == "search \n";
    SuffixOf(pre, "search \n");
  }

  /** The address on every nameserver line parses back to the server it was written for. */
  lemma NameserverParses(ip: u32)
    ensures var l := NameserverLine(ip);
      |l| > 11 && l[..11] == "nameserver " && ParseAddr(l[11..]) == Ok(V4(ip))
  {
    var l := NameserverLine(ip);
    ParseFormatAddr(ip);
    assert l[11..] == FormatAddr(V4(ip));
  }

  lemma NoNewlineInAddr(ip: u32)
    ensures '\n' !in FormatAddr(V4(ip))
  {
    var o := Octets(ip);
    var f0, f1, f2, f3 := FormatNat(o[0]), FormatNat(o[1]), FormatNat(o[2]), FormatNat(o[3]);
    assert forall i | 0 <= i < |f0| :: IsDigit(f0[i]);
    assert forall i | 0 <= i < |f1| :: IsDigit(f1[i]);
    assert forall i | 0 <= i < |f2| :: IsDigit(f2[i]);
    assert forall i | 0 <= i < |f3| :: IsDigit(f3[i]);
  }

  /** Splitting the text at newlines gives back the lines, then the empty rest after the last newline. */
  lemma {:induction false} SplitTerminated(lines: seq<string>)
    requires forall l <- lines :: '\n' !in l
    ensures SplitOn(Terminated(lines), '\n') == lines + [[]]
    decreases |lines|
  {
    if lines != [] {
      assert forall l <- lines[1..] :: l in lines;
      SplitTerminated(lines[1..]);
      SplitOnField(lines[0], '\n', Terminated(lines[1..]));
      assert lines[0] + "\n" + Terminated(lines[1..]) == lines[0] + ['\n'] + Terminated(lines[1..]);
      assert [lines[0]] + (lines[1..] + [[]]) == lines + [[]];
    }
  }

  /**
   * When neither the domain nor a label holds a newline, the file holds
   * exactly the resolver lines, each ended by a newline.
   */
  lemma ResolvLinesRoundTrip(ns: seq<u32>, sl: Option<seq<string>>, domain: string)
    requires '\n' !in domain
    requires sl.Some? ==> forall w <- sl.value :: '\n' !in w
    ensures SplitOn(Terminated(ResolvLines(ns, sl, domain)), '\n') == ResolvLines(ns, sl, domain) + [[]]
  {
    var d, n, w := DomainLines(domain), NameserverLines(ns), SearchLines(sl);
    DomainNoNewline(domain);
    NameserversNoNewline(ns);
    SearchNoNewline(sl);
    assert forall l <- d + n + w :: l in d || l in n || l in w;
    SplitTerminated(d + n + w);
  }

  lemma DomainNoNewline(domain: string)
    requires '\n' !in domain
    ensures forall l <- DomainLines(domain) :: '\n' !in l
  {
  }

  lemma NameserversNoNewline(ns: seq<u32>)
    ensures forall l <- NameserverLines(ns) :: '\n' !in l
  {
    var n := NameserverLines(ns);
    forall l <- n
      ensures '\n' !in l
    {
      var i :| 0 <= i < |ns| && n[i] == l;
      NoNewlineInAddr(ns[i]);
    }
  }

  lemma SearchNoNewline(sl: Option<seq<string>>)
    requires sl.Some? ==> forall w <- sl.value :: '\n' !in w
    ensures forall l <- SearchLines(sl) :: '\n' !in l
  {
    if sl.Some? {
      NoNewlineInWords(sl.value);
    }
  }

  lemma {:induction false} NoNewlineInJoin(ws: seq<string>)
    requires |ws| >= 1 && forall w <- ws :: '\n' !in w
    ensures '\n' !in Join(ws, ' ')
    decreases |ws|
  {
    if |ws| > 1 {
      assert forall w <- ws[1..] :: w in ws;
      NoNewlineInJoin(ws[1..]);
    }
  }

  lemma NoNewlineInWords(ws: seq<string>)
    requires forall w <- ws :: '\n' !in w
    ensures '\n' !in JoinWords(ws)
  {
    if ws != [] {
      NoNewlineInJoin(ws);
    }
  }

  /** Labels without spaces are recovered by splitting the search list at spaces. */
  lemma {:induction false} SplitJoin(ws: seq<string>, sep: char)
    requires |ws| >= 1 && forall w <- ws :: sep !in w
    ensures SplitOn(Join(ws, sep), sep) == ws
    decreases |ws|
  {
    if |ws| == 1 {
      SplitOnNoSep(ws[0], sep);
    } else {
      assert forall w <- ws[1..] :: w in ws;
      SplitJoin(ws[1..], sep);
      SplitOnField(ws[0], sep, Join(ws[1..], sep));
      assert [ws[0]] + ws[1..] == ws;
    }
  }

  lemma SearchWordsRoundTrip(ws: seq<string>)
    requires ws != [] && forall w <- ws :: ' ' !in w
    ensures SplitOn(JoinWords(ws), ' ') == ws
  {
    SplitJoin(ws, ' ');
  }

  // ---------------------------------------------------------------------------
  // Applying a lease

  /** The options of the acknowledged lease that the client uses. */
  datatype Ack = Ack(
    yourIP: u32,
    subnetMask: Option<u32>,
    routers: seq<u32>,
    dns: seq<u32>,
    domainSearch: Option<seq<string>>,
    domainName: string)

  datatype LeaseError = ClientFailed | NoLease | AddrFailed | RouteFailed | WriteFailed

  /** The calls the client makes on the interface and the file system. */
  datatype Effect = SetAddr(ip: u32, mask: u32) | SetRoute(gw: u32) | WriteResolv(text: string)

  /**
   * What the outside world answers: whether the DHCP client starts, the lease
   * acknowledged (if any), and whether the address change, the route change
   * and the file write succeed.
   */
  datatype Env = Env(clientOk: bool, lease: Option<Ack>, addrOk: bool, routeOk: bool, writeOk: bool)

  /** The mask of a single-host (/32) network. */
  const HostMask: u32 := 0xFFFF_FFFF

  /**
   * The calls made and the error returned, step by step: each failing step
   * ends the run. The run succeeds exactly when every step succeeds, and
   * then it made its calls in order: address, route if any, file.
   */
  function LeaseRun(env: Env): (r: (seq<Effect>, Option<LeaseError>))
    ensures r.1.None? <==> AddressSet(env) && (env.lease.value.routers == [] || env.routeOk) && env.writeOk
    ensures r.1.None? ==>
      var ack, effs := env.lease.value, r.0;
      |effs| == (if ack.routers == [] then 2 else 3) && effs[0].SetAddr? && effs[|effs| - 1].WriteResolv? &&
      (ack.routers != [] ==> effs[1] == SetRoute(ack.routers[0]))
  {
    if !env.clientOk then ([], Some(ClientFailed))
    else if env.lease.None? then ([], Some(NoLease))
    else
      var ack := env.lease.value;
      var mask := if ack.subnetMask.Some? then ack.subnetMask.value else HostMask;
      var addr := [SetAddr(ack.yourIP, mask)];
      if !env.addrOk then (addr, Some(AddrFailed))
      else
        var route := if |ack.routers| > 0 then [SetRoute(ack.routers[0])] else [];
        if |ack.routers| > 0 && !env.routeOk then (addr + route, Some(RouteFailed))
        else
          var write := [WriteResolv(Terminated(ResolvLines(ack.dns, ack.domainSearch, ack.domainName)))];
          (addr + route + write, if env.writeOk then None else Some(WriteFailed))
  }

  /** The client got a lease and set its address, so it goes on to the route and the resolver file. */
  predicate AddressSet(env: Env) {
    env.clientOk && env.lease.Some? && env.addrOk
  }

  /** A lease without a subnet mask is applied as a single-host address. */
  lemma MaskDefault(env: Env)
    requires env.clientOk && env.lease.Some?
    ensures var ack, effs := env.lease.value, LeaseRun(env).0;
      effs != [] && effs[0] == SetAddr(ack.yourIP, if ack.subnetMask.Some? then ack.subnetMask.value else HostMask)
  {
  }

  /** A route is set exactly when the lease names a router, and it goes through the first one. */
  lemma RouteIff(env: Env, gw: u32)
    ensures SetRoute(gw) in LeaseRun(env).0 <==>
      AddressSet(env) && |env.lease.value.routers| > 0 && gw == env.lease.value.routers[0]
  {
  }

  /**
   * The resolver file is written exactly when the address and any route were
   * set, from the lease's servers, search list and domain; it has a search
   * line exactly when the lease carries a domain-search option.
   */
  lemma ResolvWritten(env: Env, text: string)
    ensures WriteResolv(text) in LeaseRun(env).0 <==>
      AddressSet(env) && (env.lease.value.routers == [] || env.routeOk) &&
      text == Terminated(ResolvLines(env.lease.value.dns, env.lease.value.domainSearch, env.lease.value.domainName))
  {
  }

  /** The host the client configures, seen through the calls made on it. */
  class Host {
    var effects: seq<Effect>

    constructor ()
      ensures effects == []
    {
      effects := [];
    }

    /** Obtains a lease and applies its address, default route and resolver settings. */
    method Lease4(env: Env) returns (err: Option<LeaseError>)
      modifies this
      ensures effects == old(effects) + LeaseRun(env).0
      ensures err == LeaseRun(env).1
    {
      if !env.clientOk {
        return Some(ClientFailed);
      }
      if env.lease.None? {
        return Some(NoLease);
      }
      var ack := env.lease.value;
      var netmask := ack.subnetMask;
      if netmask.None? {
        netmask := Some(HostMask);
      }
      effects := effects + [SetAddr(ack.yourIP, netmask.value)];
      if !env.addrOk {
        return Some(AddrFailed);
      }
      if |ack.routers| > 0 {
        effects := effects + [SetRoute(ack.routers[0])];
        if !env.routeOk {
          return Some(RouteFailed);
        }
      }
      var ds: Option<seq<string>> := None;
      if ack.domainSearch.Some? {
        ds := Some(ack.domainSearch.value);
      }
      var rc := WriteDNSSettings(ack.dns, ds, ack.domainName);
      effects := effects + [WriteResolv(rc)];
      if !env.writeOk {
        return Some(WriteFailed);
      }
      return None;
    }
  }
}
