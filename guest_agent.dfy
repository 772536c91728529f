/**
 * The two guest-agent dialects the lab engine talks to (run_vm.go): the
 * MikroTik router image (`chr`) and the CyberOS switch and asset image
 * (`csw`). Each names its virtio-serial port, wraps a provisioning script in
 * its own `guest-exec` payload, and brings a default init template that is
 * put in front of the node's own init script.
 */
module GuestAgent {

  datatype Dialect = Chr | Csw

  /** `Path`: the name of the virtio-serial port the agent listens on. */
  function Path(d: Dialect): (p: string)
    ensures |p| > 0
  {
    match d
    case Chr => "chr.provision_agent"
    case Csw => "cyberos.provision_agent"
  }

  /** Both dialects listen on different ports. */
  lemma PathsDiffer()
    ensures Path(Chr) != Path(Csw)
  {
    assert Path(Chr)[1] != Path(Csw)[1];
  }

  /**
   * The arguments of a `guest-exec` request. The router agent takes the
   * script as `input-data` and is asked to capture its output; the switch
   * agent takes a `path` of "<script>" and the script as `input-data` text.
   */
  datatype Payload =
    | ChrExec(inputData: string, captureOutput: bool)
    | CswExec(path: string, content: string)

  /** The script a payload carries. */
  function ScriptOf(p: Payload): string {
    match p
    case ChrExec(data, _) => data
    case CswExec(_, content) => content
  }

  /** The dialect a payload is written in. */
  function DialectOf(p: Payload): Dialect {
    if p.ChrExec? then Chr else Csw
  }

  /** `Execute`: the `guest-exec` arguments that run `script`. */
  function Execute(d: Dialect, script: string): (p: Payload)
    ensures p.ChrExec? ==> p.captureOutput
    ensures p.CswExec? ==> p.path == "<script>"
  {
    match d
    case Chr => ChrExec(script, true)
    case Csw => CswExec("<script>", script)
  }

  /** Every payload carries its script unchanged, in the dialect it was built for. */
  lemma ExecuteCarriesScript(d: Dialect, script: string)
    ensures ScriptOf(Execute(d, script)) == script
    ensures DialectOf(Execute(d, script)) == d
  {
  }

  /** Lines of text, each ended by a newline. */
  function Lines(ls: seq<string>): string {
    if ls == [] then "" else ls[0] + "\n" + Lines(ls[1..])
  }

  /** Text made of lines starts with its first line and ends with a newline. */
  lemma {:induction false} LinesShape(ls: seq<string>)
    requires |ls| > 0
    ensures |Lines(ls)| > |ls[0]| && Lines(ls)[..|ls[0]| + 1] == ls[0] + "\n"
    ensures Lines(ls)[|Lines(ls)| - 1] == '\n'
    decreases |ls|
  {
    var t := Lines(ls[1..]);
    assert Lines(ls) == (ls[0] + "\n") + t;
    if |ls| > 1 {
      LinesShape(ls[1..]);
    }
  }

  /** The line both templates open with: a loop over the node's interfaces. */
  const RangeInterfaces: string := "{{ range .Interfaces }}"

  /** The router (RouterOS) template, line by line. */
  const ChrInitLines: seq<string> := [
    RangeInterfaces,
    "{{ if .Address.IsValid }}",
    "/ip/address/add interface={{.Name}} address={{.Address}}/{{.Network.Bits}}",
    "{{- if .NATed}}",
    "/ip/route/add dst-address=0.0.0.0/0 gateway={{ last_address .Network }}",
    "/ip/dns/set servers=9.9.9.9,149.112.112.112",
    "{{ end }}",
    "{{ else if not .LinkOnly}}",
    "/ip/dhcp-client/add interface={{.Name}}",
    "{{ end }}",
    "{{ end }}",
    "/system/identity/set name=\"{{.Name}}\""]

  /** The switch (CyberOS) template, line by line. */
  const CswInitLines: seq<string> := [
    RangeInterfaces,
    "{{ if .Address.IsValid }}",
    "PUT netcfg /ip/address/add interface={{.Name}} address={{.Address}}/{{.Network.Bits}}",
    "{{ end }}",
    "{{ end }}"]

  /**
   * `defaultInit`: the dialect's init template (Go text/template syntax, kept
   * verbatim, line by line). The router template configures every addressed
   * interface, a default route and DNS servers on NAT links, DHCP on the
   * other non link-only interfaces, and the system identity; the switch
   * template only configures addressed interfaces. Both loop over the
   * interfaces and end with a newline.
   */
  function DefaultInit(d: Dialect): (r: string)
    ensures |r| > |RangeInterfaces| && r[..|RangeInterfaces| + 1] == RangeInterfaces + "\n"
    ensures r[|r| - 1] == '\n'
  {
    var ls := if d == Chr then ChrInitLines else CswInitLines;
    assert |ls| > 0 && ls[0] == RangeInterfaces;
    LinesShape(ls);
    Lines(ls)
  }

  /**
   * The script template of a node: the dialect's default template, then the
   * node's own init script, which starts on a line of its own.
   */
  function InitScript(d: Dialect, init: string): (r: string)
    ensures var n := |DefaultInit(d)|; n > 0 && |r| == n + |init|
    ensures var n := |DefaultInit(d)|; r[..n] == DefaultInit(d) && r[n - 1] == '\n' && r[n..] == init
  {
    DefaultInit(d) + init
  }
}
