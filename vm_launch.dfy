/**
 * run_vm.go: starting a node as a QEMU virtual machine (`RunVM`) and
 * provisioning it through its guest agent (`ExecGuest`).
 *
 * Everything `RunVM` asks the host (the working directory, which image files
 * exist, whether `qemu-img`, the `chown`/`mkfifo` calls and the QEMU start
 * succeed) is an input, `Host`. The random MAC suffixes are an input sequence.
 * The guest agent is the sequence of answers it gives, one per request, in
 * order; its side of the exchange and the waits are recorded as `Event`s.
 */
module VmLaunch {
  import opened Wrappers
  import opened Strconv
  import opened Paths
  import GuestAgent
  import opened Topology
  import opened MacAddr
  import opened UserIds

  // ---------------------------------------------------------------------------
  // Environment and errors

  /** An open file handed to the VM (a tap device), by identity. */
  type FileId = nat

  /** What the host answers to the steps `RunVM` cannot decide itself. */
  datatype Host = Host(
    imagesDir: string,                    // ImagesDefaultLocation
    mikrotikImage: string,                // MikrotikImage
    cyberOSImage: string,                 // CyberOSImage
    tmpDir: string,                       // TmpDir
    wd: Option<string>,                   // os.Getwd, None on error
    present: string -> bool,              // os.Stat succeeds on a path
    createDisk: (string, string) -> bool, // qemu-img create -b <base> <overlay> succeeds
    commReady: bool,                      // the chown and mkfifo calls all succeed
    started: bool)                        // cm.Start succeeds

  datatype GuestError =
    | NoQmp               // cannot contact qmp
    | InterfacesTimeout   // timeout waiting for interfaces
    | ListingInterfaces   // listing interfaces
    | InvalidInitScript   // the init template does not parse or execute
    | RunningScript       // running provisioning script
    | ExecStatus          // cannot read exec status
    | ScriptFailed(data: string) // Error running script: <data>
    | NotSeeded           // could not properly seed machine

  datatype LaunchError =
    | NoWorkingDir
    | ImageNotFound(base: string)
    | DiskCreation
    | BadUser(uid: string, idError: IdError)
    | CommStructures
    | QemuStart
    | GuestFailed(cause: GuestError)

  /** The node fields `RunVM` and `ExecGuest` read. */
  datatype NodeView = NodeView(name: string, kind: NodeType, image: string, uefi: bool, media: string, init: string, ifcs: seq<Iface>)

  function View(node: Netnode): NodeView
    reads node
  {
    NodeView(node.name, node.kind, node.image, node.uefi, node.media, node.init, node.ifcs)
  }

  // ---------------------------------------------------------------------------
  // The base image

  /** The image a node boots from before resolution: its own, else its type's default. */
  function ImageBase(image: string, kind: NodeType, h: Host): (b: string)
    requires image != "" || kind != Asset
    ensures image != "" ==> b == image
    ensures image == "" && kind == Router ==> b == h.mikrotikImage
    ensures image == "" && kind == Switch ==> b == h.cyberOSImage
  {
    if image != "" then image
    else if kind == Router then h.mikrotikImage
    else h.cyberOSImage
  }

  /**
   * An absolute base is used as is; a relative one is looked up first in
   * the images directory, then in the working directory.
   */
  function ResolveImage(image: string, kind: NodeType, h: Host): (r: Result<string, LaunchError>)
    requires image != "" || kind != Asset
    ensures var base := ImageBase(image, kind, h);
      && (IsAbs(base) ==> r == Ok(base))
      && (!IsAbs(base) && h.wd.None? ==> r == Err(NoWorkingDir))
      && (!IsAbs(base) && h.wd.Some? ==>
            && (h.present(JoinPath(h.imagesDir, base)) ==> r == Ok(JoinPath(h.imagesDir, base)))
            && (!h.present(JoinPath(h.imagesDir, base)) && h.present(JoinPath(h.wd.value, base)) ==> r == Ok(JoinPath(h.wd.value, base)))
            && (r.Ok? ==> h.present(r.value))
            && (r.Err? <==> !h.present(JoinPath(h.imagesDir, base)) && !h.present(JoinPath(h.wd.value, base))))
      && (r.Err? ==> r.error == NoWorkingDir || r.error == ImageNotFound(base))
  {
    var base := ImageBase(image, kind, h);
    if IsAbs(base) then Ok(base)
    else match h.wd
      case None => Err(NoWorkingDir)
      case Some(wd) =>
        if h.present(JoinPath(h.imagesDir, base)) then Ok(JoinPath(h.imagesDir, base))
        else if h.present(JoinPath(wd, base)) then Ok(JoinPath(wd, base))
        else Err(ImageNotFound(base))
  }

  /** When both search directories are absolute, a resolved image always is. */
  lemma ResolvedIsAbsolute(image: string, kind: NodeType, h: Host)
    requires image != "" || kind != Asset
    requires IsAbs(h.imagesDir) && h.wd.Some? && IsAbs(h.wd.value)
    ensures ResolveImage(image, kind, h).Ok? ==> IsAbs(ResolveImage(image, kind, h).value)
  {
    var base := ImageBase(image, kind, h);
    JoinUnderAbs(h.imagesDir, base);
    JoinUnderAbs(h.wd.value, base);
  }

  // ---------------------------------------------------------------------------
  // The QEMU command line

  const QemuPath := "/usr/bin/qemu-system-x86_64"
  const OvmfDrive := "if=pflash,format=raw,unit=0,readonly=on,file=/usr/share/ovmf/OVMF.fd"

  /** The guest agent's character device: a TCP server on 127.0.10.1 at `port`. */
  function ChardevArg(port: nat): string {
    "socket,id=ga0,host=127.0.10.1,port=" + FormatNat(port) + ",server=on,wait=off"
  }

  /** Two VMs given different port numbers get different agent sockets. */
  lemma ChardevArgInjective(p: nat, q: nat)
    requires ChardevArg(p) == ChardevArg(q)
    ensures p == q
  {
    var pre := "socket,id=ga0,host=127.0.10.1,port=";
    var ps, qs := FormatNat(p), FormatNat(q);
    // Both texts have the same length, so the digits sit at the same place.
    assert |ps| == |qs|;
    assert ChardevArg(p)[|pre|..|pre| + |ps|] == ps;
    assert ChardevArg(q)[|pre|..|pre| + |qs|] == qs;
    FormatNatInjective(p, q);
  }

  /** The arguments every VM gets, in order: 21 of them. */
  function FixedArgs(port: nat, d: GuestAgent.Dialect, vst: string): (a: seq<string>)
    ensures |a| == 21
  {
    [ "-machine", "accel=kvm,type=q35",
      "-cpu", "host",
      "-m", "512",
      "-nographic",
      "-monitor", "none",
      "-device", "virtio-rng-pci",
      "-chardev", ChardevArg(port),
      "-device", "virtio-serial",
      "-device", "virtserialport,chardev=ga0,name=" + GuestAgent.Path(d),
      "-serial", "pty",
      "-drive", "format=qcow2,file=" + vst ]
  }

  /** The UEFI firmware drive, then the backup media drive, when configured. */
  function OptionalDrives(uefi: bool, media: string): (a: seq<string>)
    ensures |a| == (if uefi then 2 else 0) + (if media != "" then 2 else 0)
  {
    (if uefi then ["-drive", OvmfDrive] else [])
    + (if media != "" then ["-drive", "if=none,id=backup,format=raw,file=" + media] else [])
  }

  /** Three random bytes, as `rndmac` draws them. */
  type Rnd = (byte, byte, byte)

  /** The i-th draw; a draw past the end of the input reads as zero bytes. */
  function RndAt(rnd: seq<Rnd>, i: nat): Rnd {
    if i < |rnd| then rnd[i] else (0, 0, 0)
  }

  /** `rndmac`: the three bytes as `%x:%x:%x`, which read back as the 24-bit number they make. */
  function RndMac(r: Rnd): (s: string)
    ensures 5 <= |s| <= 8
    ensures ParseMac(s) == Some(r.0 as int * 0x1_0000 + r.1 as int * 0x100 + r.2 as int)
  {
    HexTriple(r.0, r.1, r.2)
  }

  /** The network card on file descriptor `fd`, with a locally administered QEMU MAC prefix. */
  function NicArg(fd: nat, mac: string): string {
    "tap,fd=" + FormatNat(fd) + ",model=e1000,mac=52:54:00:" + mac
  }

  /**
   * A card argument starts `tap,fd=`, then the descriptor in decimal up to
   * the next comma; that text reads back as the descriptor.
   */
  lemma NicArgFd(fd: nat, mac: string)
    requires fd < Pow2(63)
    ensures var s, n := NicArg(fd, mac), |FormatNat(fd)|;
      && 7 + n < |s| && s[..7] == "tap,fd=" && s[7..7 + n] == FormatNat(fd) && s[7 + n] == ','
      && Atoi(FormatNat(fd)) == (fd, true)
  {
    FieldsAt("tap,fd=", FormatNat(fd), ",model=e1000,mac=52:54:00:", mac);
    AtoiFormatNat(fd);
  }

  lemma HeadAt<T>(a: seq<T>, b: seq<T>, c: seq<T>, i: nat)
    requires i < |a|
    ensures (a + b + c)[i] == a[i]
  {
  }

  lemma FieldsAt<T>(p: seq<T>, d: seq<T>, q: seq<T>, m: seq<T>)
    requires q != []
    ensures var s := p + d + q + m;
      |p| + |d| < |s| && s[..|p|] == p && s[|p|..|p| + |d|] == d && s[|p| + |d|] == q[0]
  {
    var s := p + d + q + m;
    assert s == p + (d + (q + m));
    assert (d + (q + m))[..|d|] == d;
  }

  /** One `-nic` pair per interface, interface i on descriptor 3 + i. */
  function NicArgs(n: nat, rnd: seq<Rnd>): (a: seq<string>)
    ensures |a| == 2 * n
  {
    if n == 0 then []
    else NicArgs(n - 1, rnd) + ["-nic", NicArg(3 + (n - 1), RndMac(RndAt(rnd, n - 1)))]
  }

  /** A VM without interfaces gets `-nic none` instead of cards. */
  function NicSection(n: nat, rnd: seq<Rnd>): seq<string> {
    if n == 0 then ["-nic", "none"] else NicArgs(n, rnd)
  }

  /** QEMU's arguments: the fixed ones first, then the optional drives, and the cards last. */
  function QemuArgs(v: NodeView, vst: string, port: nat, rnd: seq<Rnd>): (a: seq<string>)
    ensures var fixed := FixedArgs(port, Agent(v.kind), vst);
      |fixed| <= |a| && a[..|fixed|] == fixed
    ensures var at := |FixedArgs(port, Agent(v.kind), vst)| + |OptionalDrives(v.uefi, v.media)|;
      at <= |a| && a[at..] == NicSection(|v.ifcs|, rnd)
  {
    var fixed := FixedArgs(port, Agent(v.kind), vst);
    var lead := fixed + OptionalDrives(v.uefi, v.media);
    var a := lead + NicSection(|v.ifcs|, rnd);
    assert a[|lead|..] == NicSection(|v.ifcs|, rnd);
    assert a[..|fixed|] == fixed;
    a
  }

  /** `taps[name]`: the interface's tap file, or nil when the map has none. */
  function TapOf(taps: map<string, FileId>, name: string): Option<FileId> {
    if name in taps then Some(taps[name]) else None
  }

  /** The files after stdin, stdout and stderr, one per interface in order. */
  function ExtraFiles(ifcs: seq<Iface>, taps: map<string, FileId>): (r: seq<Option<FileId>>)
    ensures |r| == |ifcs|
  {
    if ifcs == [] then []
    else ExtraFiles(ifcs[..|ifcs| - 1], taps) + [TapOf(taps, ifcs[|ifcs| - 1].name)]
  }

  lemma {:induction false} NicArgsAt(n: nat, rnd: seq<Rnd>, i: nat)
    requires i < n
    ensures NicArgs(n, rnd)[2 * i] == "-nic"
    ensures NicArgs(n, rnd)[2 * i + 1] == NicArg(3 + i, RndMac(RndAt(rnd, i)))
  {
    if i < n - 1 {
      NicArgsAt(n - 1, rnd, i);
    }
  }

  lemma {:induction false} ExtraFilesAt(ifcs: seq<Iface>, taps: map<string, FileId>, i: nat)
    requires i < |ifcs|
    ensures ExtraFiles(ifcs, taps)[i] == TapOf(taps, ifcs[i].name)
    decreases |ifcs|
  {
    var init := ifcs[..|ifcs| - 1];
    if i < |ifcs| - 1 {
      ExtraFilesAt(init, taps, i);
      assert init[i] == ifcs[i];
    }
  }

  /**
   * The i-th card uses descriptor 3 + i, and the (3 + i)-th descriptor of
   * the process, `ExtraFiles[i]`, is the tap of interface i: each card is
   * wired to its own interface's tap.
   */
  lemma TapFdAlignment(ifcs: seq<Iface>, rnd: seq<Rnd>, taps: map<string, FileId>, i: nat)
    requires i < |ifcs|
    ensures var cards := NicSection(|ifcs|, rnd);
      2 * i + 1 < |cards| && cards[2 * i] == "-nic" && cards[2 * i + 1] == NicArg(3 + i, RndMac(RndAt(rnd, i)))
    ensures ExtraFiles(ifcs, taps)[i] == TapOf(taps, ifcs[i].name)
  {
    NicArgsAt(|ifcs|, rnd, i);
    ExtraFilesAt(ifcs, taps, i);
  }

  /** A VM without interfaces is started with no card and no extra file. */
  lemma NoInterfaces(v: NodeView, vst: string, port: nat, rnd: seq<Rnd>, taps: map<string, FileId>)
    requires v.ifcs == []
    ensures QemuArgs(v, vst, port, rnd)[|QemuArgs(v, vst, port, rnd)| - 2..] == ["-nic", "none"]
    ensures ExtraFiles(v.ifcs, taps) == []
  {
  }

  // ---------------------------------------------------------------------------
  // The guest agent exchange

  /** The fields of the agent's replies that are read. */
  datatype Reply = Reply(names: seq<string>, pid: int, exited: bool, exitCode: int, outData: string, errData: string)

  /** The zero value a reply decodes to when the agent answers with an error object. */
  const ZeroReply := Reply([], 0, false, 0, "", "")

  /**
   * The agent's answer to one request: a read deadline that passes, another
   * transport or decoding error, an error object (which the QMP client
   * reports as success with nothing decoded), or a reply.
   */
  datatype Answer = Timeout | Failure | AgentError | Answered(reply: Reply)

  /** The n-th answer; past the end of the input the agent no longer answers. */
  function At(answers: seq<Answer>, n: nat): Answer {
    if n < |answers| then answers[n] else Timeout
  }

  /** What a successful answer decodes to. */
  function Body(a: Answer): Reply {
    if a.Answered? then a.reply else ZeroReply
  }

  datatype RequestArgs = NoArgs | ExecArgs(payload: GuestAgent.Payload) | StatusArgs(pid: int)

  /** What the launcher does, in order, that a user or the agent can observe. */
  datatype Event =
    | Dial(port: nat)
    | Request(command: string, args: RequestArgs)
    | Sleep(seconds: nat)
    | Print(line: string)

  /** The agent side of one launch, and the init-template renderer (text/template). */
  datatype GuestEnv = GuestEnv(dialOk: bool, answers: seq<Answer>, pubKey: string,
                               render: (string, TemplateNode) -> Option<string>)

  const ListInterfaces := Request("guest-network-get-interfaces", NoArgs)

  function StatusRequest(pid: int): Event {
    Request("guest-exec-status", StatusArgs(pid))
  }

  function Names(s: seq<string>): set<string> {
    set i | 0 <= i < |s| :: s[i]
  }

  /** The interface names the guest reports in an answer. */
  function Reported(a: Answer): set<string> {
    if a.AgentError? || a.Answered? then Names(Body(a).names) else {}
  }

  /** The interface names the template expects the guest to have. */
  function WantNames(dt: TemplateNode): set<string> {
    set i | 0 <= i < |dt.interfaces| :: dt.interfaces[i].name
  }

  /** An answer that costs one try: a timeout, or a listing that lacks a wanted name. */
  predicate Miss(want: set<string>, a: Answer) {
    a.Timeout? || (!a.Failure? && !(want <= Reported(a)))
  }

  datatype Wait = Ready(next: nat) | WaitFailed(e: GuestError)

  /** What a step of the exchange comes to: its result and the events it caused, in order. */
  datatype Outcome = Outcome(result: Result<(), GuestError>, events: seq<Event>)

  /** What waiting for the interfaces comes to. */
  datatype Waited = Waited(wait: Wait, events: seq<Event>)

  /** Puts `pre` in front of the events of an outcome. */
  function Then(pre: seq<Event>, o: Outcome): Outcome {
    Outcome(o.result, pre + o.events)
  }

  function WaitThen(pre: seq<Event>, w: Waited): Waited {
    Waited(w.wait, pre + w.events)
  }

  /**
   * Waiting for the interfaces, from answer `k` with `tries` tries left:
   * each miss costs a try and, unless none is left, a wait of
   * 2 s << (5 - tries left) before asking again.
   */
  function WaitUp(want: set<string>, answers: seq<Answer>, k: nat, tries: nat): (w: Waited)
    requires 1 <= tries <= 5
    ensures w.events != [] && w.events[0] == ListInterfaces
    ensures w.wait.Ready? ==> k < w.wait.next <= k + tries
    decreases tries
  {
    var a := At(answers, k);
    if a.Failure? then Waited(WaitFailed(ListingInterfaces), [ListInterfaces])
    else if !Miss(want, a) then Waited(Ready(k + 1), [ListInterfaces])
    else if tries == 1 then Waited(WaitFailed(InterfacesTimeout), [ListInterfaces])
    else WaitThen([ListInterfaces, Sleep(2 * Pow2(5 - (tries - 1)))], WaitUp(want, answers, k + 1, tries - 1))
  }

  /**
   * Polling the script's status, from answer `k` with `left` polls left: an
   * exited script ends the polling, otherwise the launcher waits 2 s.
   */
  function Poll(answers: seq<Answer>, k: nat, left: nat, pid: int): (o: Outcome)
    ensures left > 0 ==> o.events != [] && o.events[0] == StatusRequest(pid)
    ensures o.result.Ok? ==> left > 0
    decreases left
  {
    if left == 0 then Outcome(Err(NotSeeded), [])
    else
      var a := At(answers, k);
      if a.Timeout? || a.Failure? then Outcome(Err(ExecStatus), [StatusRequest(pid)])
      else
        var st := Body(a);
        if st.exited then
          if st.exitCode == 0 then
            Outcome(Ok(()), [StatusRequest(pid)] + (if |st.outData| > 0 then ScriptResults(st.outData) else []))
          else Outcome(Err(ScriptFailed(if |st.errData| == 0 then st.outData else st.errData)), [StatusRequest(pid)])
        else Then([StatusRequest(pid), Sleep(2)], Poll(answers, k + 1, left - 1, pid))
  }

  function ScriptResults(out: string): seq<Event> {
    [Print("--- script results ---"), Print(out), Print("-----------------")]
  }

  /** The data the node's init template is rendered with. */
  function TemplateOf(v: NodeView, pubKey: string): TemplateNode {
    TemplateNode(v.name, "", TemplateEntries(v.ifcs), pubKey)
  }

  /** The node's init script (its dialect's default template, then its own), rendered. */
  function Rendered(v: NodeView, g: GuestEnv): Option<string> {
    g.render(GuestAgent.InitScript(Agent(v.kind), v.init), TemplateOf(v, g.pubKey))
  }

  /**
   * `ExecGuest`, as its result and the events it causes: a whole
   * provisioning sends at most 16 requests, five listings, one `guest-exec`
   * and ten status polls.
   */
  function GuestOutcome(v: NodeView, port: nat, g: GuestEnv): (o: Outcome)
    ensures Requests(o.events) <= 16
  {
    var pre := [Sleep(1), Dial(port)];
    RequestsSingle(Sleep(1));
    RequestsSingle(Dial(port));
    RequestsPair(Sleep(1), Dial(port));
    if v.kind == Switch then Outcome(Ok(()), [Sleep(1)])
    else if !g.dialOk then Outcome(Err(NoQmp), pre)
    else
      RequestsAppend(pre, Provision(v, g).events);
      Then(pre, Provision(v, g))
  }

  /** Once connected: wait for the interfaces, then run the script; at most 16 requests. */
  function Provision(v: NodeView, g: GuestEnv): (o: Outcome)
    ensures Requests(o.events) <= 16
  {
    var w := WaitUp(WantNames(TemplateOf(v, g.pubKey)), g.answers, 0, 5);
    WaitUpBounded(WantNames(TemplateOf(v, g.pubKey)), g.answers, 0, 5);
    match w.wait
    case WaitFailed(e) => Outcome(Err(e), w.events)
    case Ready(k) =>
      RequestsAppend(w.events, RunScript(v, g, k).events);
      Then(w.events, RunScript(v, g, k))
  }

  /** Running the rendered script from answer `k` on, then polling its status: one `guest-exec` and at most ten polls. */
  function RunScript(v: NodeView, g: GuestEnv, k: nat): (o: Outcome)
    ensures Requests(o.events) <= 11
  {
    match Rendered(v, g)
    case None => Outcome(Err(InvalidInitScript), [])
    case Some(script) =>
      var ex := Request("guest-exec", ExecArgs(GuestAgent.Execute(Agent(v.kind), script)));
      var a := At(g.answers, k);
      RequestsSingle(ex);
      if a.Timeout? || a.Failure? then Outcome(Err(RunningScript), [ex])
      else
        var rest := Poll(g.answers, k + 1, 10, Body(a).pid);
        PollBounded(g.answers, k + 1, 10, Body(a).pid);
        RequestsAppend([ex], rest.events);
        Then([ex], rest)
  }

  lemma ThenNothing(o: Outcome)
    ensures Then([], o) == o
  {
    assert [] + o.events == o.events;
  }

  lemma ThenThen(a: seq<Event>, b: seq<Event>, o: Outcome)
    ensures Then(a, Then(b, o)) == Then(a + b, o)
  {
    assert a + (b + o.events) == (a + b) + o.events;
  }

  lemma WaitThenNothing(w: Waited)
    ensures WaitThen([], w) == w
  {
    assert [] + w.events == w.events;
  }

  lemma WaitThenThen(a: seq<Event>, b: seq<Event>, w: Waited)
    ensures WaitThen(a, WaitThen(b, w)) == WaitThen(a + b, w)
  {
    assert a + (b + w.events) == (a + b) + w.events;
  }

  /** The names wanted but missing from a listing: the wanted set, with every reported name deleted. */
  method Missing(want: set<string>, names: seq<string>) returns (remaining: set<string>)
    ensures remaining == want - Names(names)
    ensures remaining == {} <==> want <= Names(names)
  {
    remaining := want;
    for j := 0 to |names|
      invariant remaining == want - Names(names[..j])
    {
      assert Names(names[..j + 1]) == Names(names[..j]) + {names[j]};
      remaining := remaining - {names[j]};
    }
    assert names[..|names|] == names;
    if remaining == {} {
      forall x | x in want ensures x in Names(names) {
        assert x !in remaining;
      }
    }
  }

  /** The `waitUp` loop: five tries, backing off after each miss. */
  method WaitInterfaces(want: set<string>, answers: seq<Answer>) returns (w: Wait, events: seq<Event>)
    ensures Waited(w, events) == WaitUp(want, answers, 0, 5)
  {
    events := [];
    var tries := 5;
    var k := 0;
    WaitThenNothing(WaitUp(want, answers, 0, 5));
    while true
      invariant 1 <= tries <= 5
      invariant WaitUp(want, answers, 0, 5) == WaitThen(events, WaitUp(want, answers, k, tries))
      decreases tries
    {
      var a := At(answers, k);
      ghost var before := events;
      ghost var rest := WaitUp(want, answers, k, tries);
      events := events + [ListInterfaces];
      var miss := true;
      if a.Failure? {
        assert rest == Waited(WaitFailed(ListingInterfaces), [ListInterfaces]);
        return WaitFailed(ListingInterfaces), events;
      } else if !a.Timeout? {
        var remaining := Missing(want, Body(a).names);
        miss := |remaining| > 0;
      }
      assert miss <==> Miss(want, a);
      if miss {
        tries := tries - 1;
        if tries == 0 {
          assert rest == Waited(WaitFailed(InterfacesTimeout), [ListInterfaces]);
          return WaitFailed(InterfacesTimeout), events;
        }
        var pause := [Sleep(2 * Pow2(5 - tries))];
        assert rest == WaitThen([ListInterfaces, Sleep(2 * Pow2(5 - tries))], WaitUp(want, answers, k + 1, tries));
        assert [ListInterfaces] + pause == [ListInterfaces, Sleep(2 * Pow2(5 - tries))];
        WaitThenThen(before, [ListInterfaces] + pause, WaitUp(want, answers, k + 1, tries));
        events := events + pause;
        assert events == before + ([ListInterfaces] + pause);
        k := k + 1;
      } else {
        assert rest == Waited(Ready(k + 1), [ListInterfaces]);
        k := k + 1;
        return Ready(k), events;
      }
    }
  }

  /** The status loop: at most ten polls, two seconds apart. */
  method PollStatus(answers: seq<Answer>, k: nat, pid: int) returns (r: Result<(), GuestError>, events: seq<Event>)
    ensures Outcome(r, events) == Poll(answers, k, 10, pid)
  {
    events := [];
    ThenNothing(Poll(answers, k, 10, pid));
    for i := 0 to 10
      invariant Poll(answers, k, 10, pid) == Then(events, Poll(answers, k + i, 10 - i, pid))
    {
      var a := At(answers, k + i);
      ghost var before := events;
      ghost var rest := Poll(answers, k + i, 10 - i, pid);
      events := events + [StatusRequest(pid)];
      if a.Timeout? || a.Failure? {
        assert rest == Outcome(Err(ExecStatus), [StatusRequest(pid)]);
        return Err(ExecStatus), events;
      }
      var status := Body(a);
      if status.exited {
        if status.exitCode == 0 {
          var shown := if |status.outData| > 0 then ScriptResults(status.outData) else [];
          assert rest == Outcome(Ok(()), [StatusRequest(pid)] + shown);
          if |status.outData| > 0 {
            events := events + ScriptResults(status.outData);
          }
          assert events == before + ([StatusRequest(pid)] + shown);
          return Ok(()), events;
        }
        var errdt := status.errData;
        if |errdt| == 0 {
          errdt := status.outData;
        }
        assert rest == Outcome(Err(ScriptFailed(errdt)), [StatusRequest(pid)]);
        return Err(ScriptFailed(errdt)), events;
      }
      assert rest == Then([StatusRequest(pid), Sleep(2)], Poll(answers, k + i + 1, 10 - (i + 1), pid));
      ThenThen(before, [StatusRequest(pid), Sleep(2)], Poll(answers, k + i + 1, 10 - (i + 1), pid));
      events := events + [Sleep(2)];
      assert events == before + [StatusRequest(pid), Sleep(2)];
    }
    assert Poll(answers, k + 10, 0, pid) == Outcome(Err(NotSeeded), []);
    assert events + [] == events;
    return Err(NotSeeded), events;
  }

  /**
   * `ExecGuest`: waits a second, leaves switches alone, then waits for the
   * guest to report every interface of the node, runs the rendered init
   * script through the agent and polls until it exits.
   */
  method ExecGuest(port: nat, node: Netnode, g: GuestEnv) returns (r: Result<(), GuestError>, events: seq<Event>)
    ensures Outcome(r, events) == GuestOutcome(View(node), port, g)
  {
    events := [Sleep(1)];
    if node.kind == Switch {
      return Ok(()), events;
    }
    events := events + [Dial(port)];
    assert events == [Sleep(1), Dial(port)];
    if !g.dialOk {
      return Err(NoQmp), events;
    }
    ghost var v := View(node);
    var dt := node.ToTemplate(g.pubKey);
    assert dt == TemplateOf(v, g.pubKey);
    var want: set<string> := {};
    for j := 0 to |dt.interfaces|
      invariant want == set m | 0 <= m < j :: dt.interfaces[m].name
    {
      want := want + {dt.interfaces[j].name};
    }
    assert want == WantNames(TemplateOf(v, g.pubKey));
    assert GuestOutcome(v, port, g) == Then(events, Provision(v, g));

    var w, waited := WaitInterfaces(want, g.answers);
    if w.WaitFailed? {
      assert Provision(v, g) == Outcome(Err(w.e), waited);
      assert GuestOutcome(v, port, g) == Outcome(Err(w.e), events + waited);
      return Err(w.e), events + waited;
    }
    assert Provision(v, g) == Then(waited, RunScript(v, g, w.next));
    ThenThen(events, waited, RunScript(v, g, w.next));
    events := events + waited;
    assert GuestOutcome(v, port, g) == Then(events, RunScript(v, g, w.next));

    var ran;
    r, ran := RunInitScript(node, dt, g, w.next);
    events := events + ran;
  }

  /** The second half of `ExecGuest`: render the init script, run it, poll its status. */
  method RunInitScript(node: Netnode, dt: TemplateNode, g: GuestEnv, k: nat) returns (r: Result<(), GuestError>, events: seq<Event>)
    requires dt == TemplateOf(View(node), g.pubKey)
    ensures Outcome(r, events) == RunScript(View(node), g, k)
  {
    ghost var v := View(node);
    var script := g.render(GuestAgent.InitScript(Agent(node.kind), node.init), dt);
    assert script == Rendered(v, g);
    if script.None? {
      return Err(InvalidInitScript), [];
    }
    var ex := Request("guest-exec", ExecArgs(GuestAgent.Execute(Agent(node.kind), script.value)));
    var a := At(g.answers, k);
    if a.Timeout? || a.Failure? {
      return Err(RunningScript), [ex];
    }
    var polled;
    r, polled := PollStatus(g.answers, k + 1, Body(a).pid);
    events := [ex] + polled;
  }

  // ---------------------------------------------------------------------------
  // Properties of the agent exchange

  /** Switches are not provisioned: after the initial second nothing is asked. */
  lemma SwitchNotProvisioned(v: NodeView, port: nat, g: GuestEnv)
    requires v.kind == Switch
    ensures GuestOutcome(v, port, g) == Outcome(Ok(()), [Sleep(1)])
  {
  }

  /** The number of requests sent to the agent among some events. */
  function Requests(ev: seq<Event>): nat {
    if ev == [] then 0 else Requests(ev[..|ev| - 1]) + (if ev[|ev| - 1].Request? then 1 else 0)
  }

  lemma RequestsSingle(e: Event)
    ensures Requests([e]) == if e.Request? then 1 else 0
  {
    assert [e][..0] == [];
  }

  lemma RequestsPair(e: Event, f: Event)
    ensures Requests([e, f]) == Requests([e]) + Requests([f])
  {
    assert [e, f][..1] == [e];
  }

  lemma ScriptResultsQuiet(out: string)
    ensures Requests(ScriptResults(out)) == 0
  {
    var sr := ScriptResults(out);
    assert sr[..2] == [sr[0], sr[1]];
    RequestsPair(sr[0], sr[1]);
    RequestsSingle(sr[0]);
    RequestsSingle(sr[1]);
  }

  lemma {:induction false} RequestsAppend(a: seq<Event>, b: seq<Event>)
    ensures Requests(a + b) == Requests(a) + Requests(b)
    decreases |b|
  {
    if b == [] {
      assert a + b == a;
    } else {
      var b' := b[..|b| - 1];
      assert (a + b)[..|a + b| - 1] == a + b';
      RequestsAppend(a, b');
    }
  }

  /** Waiting asks at most once per try and never skips an answer. */
  lemma {:induction false} WaitUpBounded(want: set<string>, answers: seq<Answer>, k: nat, tries: nat)
    requires 1 <= tries <= 5
    ensures var w := WaitUp(want, answers, k, tries);
      Requests(w.events) <= tries && (w.wait.Ready? ==> k < w.wait.next <= k + tries && Requests(w.events) == w.wait.next - k)
    decreases tries
  {
    var a := At(answers, k);
    if !a.Failure? && Miss(want, a) && tries > 1 {
      var pause := Sleep(2 * Pow2(5 - (tries - 1)));
      WaitUpBounded(want, answers, k + 1, tries - 1);
      RequestsAppend([ListInterfaces, pause], WaitUp(want, answers, k + 1, tries - 1).events);
      RequestsPair(ListInterfaces, pause);
      RequestsSingle(ListInterfaces);
      RequestsSingle(pause);
    } else {
      RequestsSingle(ListInterfaces);
    }
  }

  /**
   * Waiting times out exactly when every try is a miss; a transport error
   * ends it at once, and it is ready once one listing shows every wanted name.
   */
  lemma {:induction false} WaitUpTimeout(want: set<string>, answers: seq<Answer>, k: nat, tries: nat)
    requires 1 <= tries <= 5
    ensures WaitUp(want, answers, k, tries).wait == WaitFailed(InterfacesTimeout)
        <==> forall i | k <= i < k + tries :: Miss(want, At(answers, i))
    ensures WaitUp(want, answers, k, tries).wait.Ready? ==>
        var n := WaitUp(want, answers, k, tries).wait.next;
        n >= k + 1 && want <= Reported(At(answers, n - 1)) && forall i | k <= i < n - 1 :: Miss(want, At(answers, i))
    decreases tries
  {
    var a := At(answers, k);
    if !a.Failure? && Miss(want, a) && tries > 1 {
      WaitUpTimeout(want, answers, k + 1, tries - 1);
    }
  }

  /** With no useful answer at all, the launcher asks five times and waits 4, 8, 16 and 32 seconds in between. */
  lemma BackoffSchedule(want: set<string>, answers: seq<Answer>)
    requires forall i | 0 <= i < 5 :: Miss(want, At(answers, i))
    ensures WaitUp(want, answers, 0, 5) == Waited(WaitFailed(InterfacesTimeout),
      [ListInterfaces, Sleep(4), ListInterfaces, Sleep(8), ListInterfaces, Sleep(16), ListInterfaces, Sleep(32), ListInterfaces])
  {
    var w4 := WaitUp(want, answers, 4, 1);
    assert Miss(want, At(answers, 4));
    assert w4 == Waited(WaitFailed(InterfacesTimeout), [ListInterfaces]);
    var w3 := WaitUp(want, answers, 3, 2);
    assert Miss(want, At(answers, 3));
    assert w3 == Waited(WaitFailed(InterfacesTimeout), [ListInterfaces, Sleep(2 * Pow2(4))] + w4.events);
    var w2 := WaitUp(want, answers, 2, 3);
    assert Miss(want, At(answers, 2));
    assert w2 == Waited(WaitFailed(InterfacesTimeout), [ListInterfaces, Sleep(2 * Pow2(3))] + w3.events);
    var w1 := WaitUp(want, answers, 1, 4);
    assert Miss(want, At(answers, 1));
    assert w1 == Waited(WaitFailed(InterfacesTimeout), [ListInterfaces, Sleep(2 * Pow2(2))] + w2.events);
    assert Miss(want, At(answers, 0));
    assert WaitUp(want, answers, 0, 5) == Waited(WaitFailed(InterfacesTimeout), [ListInterfaces, Sleep(2 * Pow2(1))] + w1.events);
    assert Pow2(1) == 2 && Pow2(2) == 4 && Pow2(3) == 8 && Pow2(4) == 16;
    var L := ListInterfaces;
    assert [L, Sleep(4)] + ([L, Sleep(8)] + ([L, Sleep(16)] + ([L, Sleep(32)] + [L])))
        == [L, Sleep(4), L, Sleep(8), L, Sleep(16), L, Sleep(32), L];
  }

  /** An agent that answers every listing with an error object never satisfies a node with interfaces. */
  lemma AgentErrorsTimeOut(want: set<string>, answers: seq<Answer>)
    requires want != {}
    requires forall i | 0 <= i < |answers| :: answers[i] == AgentError
    ensures WaitUp(want, answers, 0, 5).wait == WaitFailed(InterfacesTimeout)
  {
    forall i | 0 <= i < 5 ensures Miss(want, At(answers, i)) {
      assert Reported(At(answers, i)) == {};
    }
    WaitUpTimeout(want, answers, 0, 5);
  }

  /** Polling asks at most once per poll left. */
  lemma {:induction false} PollBounded(answers: seq<Answer>, k: nat, left: nat, pid: int)
    ensures Requests(Poll(answers, k, left, pid).events) <= left
    decreases left
  {
    if left > 0 {
      var a := At(answers, k);
      RequestsSingle(StatusRequest(pid));
      if !(a.Timeout? || a.Failure?) {
        var st := Body(a);
        if st.exited {
          if st.exitCode == 0 && |st.outData| > 0 {
            RequestsAppend([StatusRequest(pid)], ScriptResults(st.outData));
            ScriptResultsQuiet(st.outData);
          }
        } else {
          PollBounded(answers, k + 1, left - 1, pid);
          RequestsAppend([StatusRequest(pid), Sleep(2)], Poll(answers, k + 1, left - 1, pid).events);
          RequestsPair(StatusRequest(pid), Sleep(2));
          RequestsSingle(Sleep(2));
        }
      }
    }
  }

  /** A status answer that shows the script still running. */
  predicate Running(a: Answer) {
    (a.AgentError? || a.Answered?) && !Body(a).exited
  }

  /** A status answer that shows the script exited successfully. */
  predicate Succeeded(a: Answer) {
    (a.AgentError? || a.Answered?) && Body(a).exited && Body(a).exitCode == 0
  }

  /**
   * Provisioning succeeds exactly when, within the polls left, the script is
   * seen exiting with status 0 after being seen running at every earlier poll.
   */
  lemma {:induction false} PollSucceeds(answers: seq<Answer>, k: nat, left: nat, pid: int)
    ensures Poll(answers, k, left, pid).result.Ok?
        <==> exists n | k <= n < k + left :: Succeeded(At(answers, n)) && forall i | k <= i < n :: Running(At(answers, i))
    decreases left
  {
    if left > 0 {
      var a := At(answers, k);
      if Running(a) {
        PollSucceeds(answers, k + 1, left - 1, pid);
        if Poll(answers, k, left, pid).result.Ok? {
          var n :| k + 1 <= n < k + 1 + (left - 1) && Succeeded(At(answers, n)) && forall i | k + 1 <= i < n :: Running(At(answers, i));
          assert Succeeded(At(answers, n)) && forall i | k <= i < n :: Running(At(answers, i));
        } else {
          forall n | k <= n < k + left && Succeeded(At(answers, n))
            ensures !forall i | k <= i < n :: Running(At(answers, i))
          {
            if n > k && forall i | k <= i < n :: Running(At(answers, i)) {
              assert false;
            }
          }
        }
      } else if Succeeded(a) {
        assert Succeeded(At(answers, k)) && forall i: nat | k <= i < k :: Running(At(answers, i));
      } else {
        forall n | k <= n < k + left && Succeeded(At(answers, n))
          ensures !forall i | k <= i < n :: Running(At(answers, i))
        {
          if n > k {
            assert !Running(At(answers, k));
          }
        }
      }
    }
  }

  /** A failing script is reported with its error output, or its standard output when the error output is empty. */
  lemma ScriptFailureMessage(answers: seq<Answer>, k: nat, left: nat, pid: int)
    requires left > 0 && At(answers, k).Answered?
    requires At(answers, k).reply.exited && At(answers, k).reply.exitCode != 0
    ensures var st := At(answers, k).reply;
      Poll(answers, k, left, pid).result == Err(ScriptFailed(if st.errData == "" then st.outData else st.errData))
  {
  }

  // ---------------------------------------------------------------------------
  // RunVM

  /** The QEMU process `RunVM` starts: program, arguments, inherited files and credentials. */
  datatype Cmd = Cmd(path: string, args: seq<string>, extraFiles: seq<Option<FileId>>, uid: nat, gid: nat)

  /**
   * A launch's outcome: the command handle, the error, whether the launch
   * got far enough to take an agent port, and the events of the agent exchange.
   */
  datatype LaunchResult = LaunchResult(cmd: Option<Cmd>, err: Option<LaunchError>, portTaken: bool, events: seq<Event>)

  /** The copy-on-write overlay disk of a node: `<TmpDir>/<name>.qcow2`. */
  function Overlay(v: NodeView, h: Host): string {
    JoinPath(h.tmpDir, v.name + ".qcow2")
  }

  /**
   * The stages of `RunVM` before an agent port is taken: resolve the base
   * image, create the overlay disk, look up the account's numeric ids, set
   * up the host's communication structures. Gives the ids, or the error of
   * the first stage that fails.
   */
  function Stages(v: NodeView, runas: User, h: Host): (r: Result<(nat, nat), LaunchError>)
    requires v.image != "" || v.kind != Asset
    ensures r.Ok? <==> ResolveImage(v.image, v.kind, h).Ok? && h.createDisk(ResolveImage(v.image, v.kind, h).value, Overlay(v, h))
                       && ValidId(runas.uid) && ValidId(runas.gid) && h.commReady
    ensures r.Ok? ==> r.value == (Value(runas.uid), Value(runas.gid))
    ensures r.Err? ==> !r.error.GuestFailed? && r.error != QemuStart
  {
    match ResolveImage(v.image, v.kind, h)
    case Err(e) => Err(e)
    case Ok(base) =>
      var ids := UserNumID(runas);
      if !h.createDisk(base, Overlay(v, h)) then Err(DiskCreation)
      else if ids.2.Some? then Err(BadUser(runas.uid, ids.2.value))
      else if !h.commReady then Err(CommStructures)
      else Ok((ids.0, ids.1))
  }

  /**
   * `RunVM` as a function of the node, the last agent port used and the
   * environment. The caller's contract: without a command handle there is
   * always an error, and it happened before QEMU ran; with one, QEMU is
   * running and the only possible error is the guest's, after which the
   * caller must stop the process.
   */
  function Launch(v: NodeView, lastPort: nat, taps: map<string, FileId>, runas: User, h: Host, g: GuestEnv, rnd: seq<Rnd>): (l: LaunchResult)
    requires v.image != "" || v.kind != Asset
    ensures l.cmd.None? ==> l.err.Some? && !l.err.value.GuestFailed? && l.events == []
    ensures l.cmd.Some? ==> h.started && l.portTaken && (l.err.None? || l.err.value.GuestFailed?)
    ensures l.err.None? ==> l.cmd.Some?
  {
    match Stages(v, runas, h)
    case Err(e) => LaunchResult(None, Some(e), false, [])
    case Ok(ids) => Boot(v, lastPort + 1, taps, ids.0, ids.1, h, g, rnd)
  }

  /**
   * From taking agent port `port` on: start QEMU, then provision the guest.
   * Once QEMU is started the handle exists; the only error left is the guest's.
   */
  function Boot(v: NodeView, port: nat, taps: map<string, FileId>, uid: nat, gid: nat, h: Host, g: GuestEnv, rnd: seq<Rnd>): (l: LaunchResult)
    ensures l.portTaken
    ensures l.cmd.None? <==> !h.started
    ensures l.cmd.None? ==> l.err == Some(QemuStart) && l.events == []
    ensures l.cmd.Some? ==> l.err.None? || l.err.value.GuestFailed?
  {
    if !h.started then LaunchResult(None, Some(QemuStart), true, [])
    else
      var c := Cmd(QemuPath, QemuArgs(v, Overlay(v, h), port, rnd), ExtraFiles(v.ifcs, taps), uid, gid);
      var o := GuestOutcome(v, port, g);
      LaunchResult(Some(c), if o.result.Ok? then None else Some(GuestFailed(o.result.error)), true, o.events)
  }

  /**
   * Every stage before `Boot` either fails without a handle and without
   * taking a port, or hands `Boot` the next port and the account's numeric ids.
   */
  lemma LaunchStages(v: NodeView, lastPort: nat, taps: map<string, FileId>, runas: User, h: Host, g: GuestEnv, rnd: seq<Rnd>)
    requires v.image != "" || v.kind != Asset
    ensures var l := Launch(v, lastPort, taps, runas, h, g, rnd);
      || (l.cmd.None? && l.err.Some? && !l.err.value.GuestFailed? && l.err != Some(QemuStart) && !l.portTaken && l.events == [])
      || (ValidId(runas.uid) && ValidId(runas.gid)
          && l == Boot(v, lastPort + 1, taps, Value(runas.uid), Value(runas.gid), h, g, rnd))
  {
  }

  /**
   * A started VM's agent socket and the port the launcher dials are the
   * same, the port after the last one taken; and the VM runs under the
   * numeric ids of the account.
   */
  lemma LaunchPortAndIds(v: NodeView, lastPort: nat, taps: map<string, FileId>, runas: User, h: Host, g: GuestEnv, rnd: seq<Rnd>)
    requires v.image != "" || v.kind != Asset
    requires Launch(v, lastPort, taps, runas, h, g, rnd).cmd.Some?
    ensures var l := Launch(v, lastPort, taps, runas, h, g, rnd);
      && l.cmd.value.args[11] == "-chardev" && l.cmd.value.args[12] == ChardevArg(lastPort + 1)
      && (v.kind != Switch ==> l.events[1] == Dial(lastPort + 1))
      && ValidId(runas.uid) && ValidId(runas.gid)
      && l.cmd.value.uid == Value(runas.uid) && l.cmd.value.gid == Value(runas.gid)
  {
    LaunchStages(v, lastPort, taps, runas, h, g, rnd);
    BootPort(v, lastPort + 1, taps, Value(runas.uid), Value(runas.gid), h, g, rnd);
  }

  lemma BootPort(v: NodeView, port: nat, taps: map<string, FileId>, uid: nat, gid: nat, h: Host, g: GuestEnv, rnd: seq<Rnd>)
    requires h.started
    ensures var l := Boot(v, port, taps, uid, gid, h, g, rnd);
      && l.cmd.Some? && l.cmd.value.uid == uid && l.cmd.value.gid == gid
      && l.cmd.value.args[11] == "-chardev" && l.cmd.value.args[12] == ChardevArg(port)
      && (v.kind != Switch ==> l.events[1] == Dial(port))
  {
    var fixed := FixedArgs(port, Agent(v.kind), Overlay(v, h));
    var args := fixed + OptionalDrives(v.uefi, v.media) + NicSection(|v.ifcs|, rnd);
    assert Boot(v, port, taps, uid, gid, h, g, rnd).cmd.value.args == args;
    FixedArgsChardev(port, Agent(v.kind), Overlay(v, h));
    HeadAt(fixed, OptionalDrives(v.uefi, v.media), NicSection(|v.ifcs|, rnd), 11);
    HeadAt(fixed, OptionalDrives(v.uefi, v.media), NicSection(|v.ifcs|, rnd), 12);
    if v.kind != Switch {
      GuestDials(v, port, g);
    }
  }

  lemma FixedArgsChardev(port: nat, d: GuestAgent.Dialect, vst: string)
    ensures FixedArgs(port, d, vst)[11] == "-chardev" && FixedArgs(port, d, vst)[12] == ChardevArg(port)
  {
  }

  lemma GuestDials(v: NodeView, port: nat, g: GuestEnv)
    requires v.kind != Switch
    ensures |GuestOutcome(v, port, g).events| >= 2 && GuestOutcome(v, port, g).events[1] == Dial(port)
  {
  }

  /** The QEMU arguments, assembled as `RunVM` appends them. */
  method BuildArgs(node: Netnode, vst: string, port: nat, rnd: seq<Rnd>) returns (args: seq<string>)
    ensures args == QemuArgs(View(node), vst, port, rnd)
  {
    args := FixedArgs(port, Agent(node.kind), vst);
    if node.uefi {
      args := args + ["-drive", OvmfDrive];
    }
    if node.media != "" {
      args := args + ["-drive", "if=none,id=backup,format=raw,file=" + node.media];
    }
    assert args == FixedArgs(port, Agent(node.kind), vst) + OptionalDrives(node.uefi, node.media);
    var nics := BuildNics(|node.ifcs|, rnd);
    args := args + nics;
  }

  /** One `-nic` card per interface, or `-nic none` when there is none. */
  method BuildNics(n: nat, rnd: seq<Rnd>) returns (nics: seq<string>)
    ensures nics == NicSection(n, rnd)
  {
    nics := [];
    if n == 0 {
      nics := ["-nic", "none"];
    }
    for i := 0 to n
      invariant nics == (if n == 0 then ["-nic", "none"] else NicArgs(i, rnd))
    {
      nics := nics + ["-nic", NicArg(3 + i, RndMac(RndAt(rnd, i)))];
    }
  }

  /** The tap files handed to QEMU, one per interface, in interface order. */
  method BuildExtraFiles(node: Netnode, taps: map<string, FileId>) returns (files: seq<Option<FileId>>)
    ensures files == ExtraFiles(node.ifcs, taps)
  {
    files := [];
    for i := 0 to |node.ifcs|
      invariant files == ExtraFiles(node.ifcs[..i], taps)
    {
      assert node.ifcs[..i + 1][..i] == node.ifcs[..i];
      files := files + [TapOf(taps, node.ifcs[i].name)];
    }
    assert node.ifcs[..|node.ifcs|] == node.ifcs;
  }

  /** From the agent port on: assemble the command, start QEMU, provision the guest. */
  method StartVM(node: Netnode, port: nat, vst: string, taps: map<string, FileId>, uid: nat, gid: nat, h: Host, g: GuestEnv, rnd: seq<Rnd>)
    returns (cmd: Option<Cmd>, err: Option<LaunchError>, events: seq<Event>)
    requires vst == Overlay(View(node), h)
    ensures LaunchResult(cmd, err, true, events) == Boot(View(node), port, taps, uid, gid, h, g, rnd)
  {
    var args := BuildArgs(node, vst, port, rnd);
    var files := BuildExtraFiles(node, taps);
    var c := Cmd(QemuPath, args, files, uid, gid);
    if !h.started {
      return None, Some(QemuStart), [];
    }
    var r;
    r, events := ExecGuest(port, node, g);
    if r.Err? {
      return Some(c), Some(GuestFailed(r.error)), events;
    }
    return Some(c), None, events;
  }

  /**
   * The stages before the agent port is taken, run in order; the first
   * failure ends them. On success also gives the overlay disk's path.
   */
  method Prepare(node: Netnode, runas: User, h: Host) returns (ids: Result<(nat, nat), LaunchError>, vst: string)
    requires node.image != "" || node.kind != Asset
    ensures ids == Stages(View(node), runas, h)
    ensures ids.Ok? ==> vst == Overlay(View(node), h)
  {
    vst := "";
    var base := ResolveImage(node.image, node.kind, h);
    if base.Err? {
      return Err(base.error), vst;
    }
    vst := JoinPath(h.tmpDir, node.name + ".qcow2");
    if !h.createDisk(base.value, vst) {
      return Err(DiskCreation), vst;
    }
    var u := UserNumID(runas);
    if u.2.Some? {
      return Err(BadUser(runas.uid, u.2.value)), vst;
    }
    if !h.commReady {
      return Err(CommStructures), vst;
    }
    ids := Ok((u.0, u.1));
  }

  /** The launcher of a session: `TelnetNum`, the last agent port handed out. */
  class Launcher {
    var telnetNum: nat

    constructor ()
      ensures telnetNum == 23
    {
      telnetNum := 23;
    }

    /**
     * `RunVM`: resolves the base image, creates the overlay disk, takes the
     * next agent port, starts QEMU and provisions the guest.
     */
    method RunVM(node: Netnode, taps: map<string, FileId>, runas: User, h: Host, g: GuestEnv, rnd: seq<Rnd>)
      returns (cmd: Option<Cmd>, err: Option<LaunchError>, events: seq<Event>)
      requires node.image != "" || node.kind != Asset
      modifies this
      ensures var l := Launch(View(node), old(telnetNum), taps, runas, h, g, rnd);
        && cmd == l.cmd && err == l.err && events == l.events
        && telnetNum == old(telnetNum) + (if l.portTaken then 1 else 0)
    {
      var ids, vst := Prepare(node, runas, h);
      if ids.Err? {
        return None, Some(ids.error), [];
      }
      telnetNum := telnetNum + 1;
      cmd, err, events := StartVM(node, telnetNum, vst, taps, ids.value.0, ids.value.1, h, g, rnd);
    }
  }
}
