# labomatic core, modelled in Dafny

labomatic builds throw-away virtual network labs. A Starlark configuration
script declares subnets, NAT'ed "Outnets", routers, switches and assets, and
attaches nodes to subnets. The engine then starts every node as a QEMU
virtual machine, provisions it through its guest agent, and offers a status
table and a shutdown over the running nodes. This project models the rule-bearing core of
that engine and proves what it promises.

- `topology.dfy` (module `Topology`, nets.go and nodes.go):
  - The `Subnet`, `Netnode` and `Iface` objects. The script keeps references to them and later calls update them in place, so they are classes. A node's and a subnet's interface lists grow with every attachment.
  - The constructors `Subnet`, `Outnet`, `Router`, `CyberSwitch` and `Asset`, with their validation rules. Their default-name counters live in the session object `Counters`.
  - The subnet's `addr(num)` builtin, the node's `attach_nic` and `SetField`, `parseEther`, `agent` and `ToTemplate`.
  - The node walk `nodesof`/`nomatch`, and the subnet walk `netsof`.
- `ipv4.dfy` (module `Ipv4`):
  - The IPv4 part of Go's `net/netip` the engine relies on: `ParseAddr`, `ParsePrefix`, `Addr.Next`, `Prefix.Contains` and dotted-quad printing.
  - The engine's own `last` (the last assignable address of a prefix) and `Addr.Truth`.
- `dhcpopts.dfy` (module `DhcpOpts`):
  - `encodeRoutes` and the `dhcp_options.classless_routes` builtin: DHCP option 121 in the encoding of RFC 3442, section 3.
  - A decoder, so that the round trip can be stated.
- `vm_launch.dfy` (module `VmLaunch`, run_vm.go):
  - `RunVM`: base-image resolution, the QEMU argument list, the tap files handed to QEMU, the agent port counter `TelnetNum`, and the handle/error contract for the caller.
  - `ExecGuest`: the bounded wait for the guest's interfaces, then the bounded poll of the provisioning script's status.
- `guest_agent.dfy` (module `GuestAgent`): the `chr` and `csw` agent dialects (`Path`, `Execute`, `defaultInit`).
- `control.dfy` (module `Control`, control.go): the fixed-width status table `FormatTable`, `prettyType`, and the shutdown loop `TermLab`.
- `dhclient.dfy` (module `Dhclient`, dhclient.go): the resolver file `WriteDNSSettings` writes, and the netmask, route and search-list choices `lease4` makes.
- `mac_addr.dfy` (module `MacAddr`, addr.go): `Mac.String`.
- `user_ids.dfy` (module `UserIds`, run_asset.go): `UserNumID`.
- `strconv.dfy`, `paths.dfy`, `starlark.dfy` and `wrappers.dfy`: the parts of Go's `strconv`, `fmt`, `path/filepath` and Starlark value printing the core uses, plus `Option`/`Result`.

The package's global counters (`netCount`, `routerCount`, `assetCount`, `TelnetNum`) are fields of session objects (`Topology.Counters`, `VmLaunch.Launcher`), so each method states how it moves them.

The environment is made of inputs:
- the working directory and which image files exist;
- the outcomes of `qemu-img`, `chown`/`mkfifo` and the QEMU start;
- the random MAC bytes;
- the guest agent's answers, one per request, in order;
- the DHCP lease;
- the outcome of each netlink call and of the file write.

What the engine does to the outside world is recorded as a sequence of events.

The status-table test in the repository (control_test.go:29-37) expects a bold, border-less layout. The code it tests (control.go:62-88) writes a bordered one. The model follows the code.

## Model

| member | source | states |
|---|---|---|
| Topology.DefaultNamesDiffer | nets.go:37-40 | two generated names with the same prefix differ whenever their counters differ |
| Topology.SubnetOutcome | nets.go:33-60 | `Subnet(...)` succeeds iff (link-only, or the network is non-empty and parses) and a DNS domain comes with a server and a DNS server comes with a host network; the result is never NAT'ed, keeps link_only, host and DNS, is named `br<n>` by default, and always has a network when not link-only |
| Topology.Counters.NewSubnet | nets.go:16-61 | the counter advances exactly when a default name is generated after the network check passed, even if a later check fails; the result or error is `SubnetOutcome` at the old counter; a fresh subnet with no members |
| Topology.OutnetOutcome | nets.go:69-103 | `Outnet(...)` succeeds iff the network is empty or parses; the result is always a NAT'ed host network, never link-only, without DNS, named `dx<n>` by default, on 169.254.254.0/24 unless a network is given |
| Topology.Counters.NewOutnet | nets.go:71-104 | the shared network counter advances exactly when the name is empty, before the network is parsed; the result is `OutnetOutcome` at the old counter |
| Topology.AddrOutcomeValue | nets.go:169-185 | `addr(num)` answers the prefix address plus max(num, 0) iff the subnet is not link-only, num is not the host's index 2^(32-bits)-2 on a host network, and the sum stays inside the prefix |
| Topology.AddrOutcomeRange | nets.go:173-183 | on a prefix written without host bits, `addr(num)` for num >= 0 succeeds iff num < 2^(32-bits) and num is not the host's index on a host network |
| Topology.AddrOutcome | nets.go:169-185 | a link-only subnet refuses addressing; every address answered lies inside the subnet |
| Topology.HostIndexIsLast | nets.go:173-175 | the index refused on host networks is the one whose address is `last`, the address the host takes |
| Topology.Subnet.constructor | nets.go:106-122 | a subnet holds the configuration it was built from, has no members and is not frozen |
| Topology.Subnet.Freeze | nets.go:124 | the subnet is frozen |
| Topology.Subnet.GetAddr | nets.go:163-186 | stepping with `Next` num times from the prefix address gives exactly `AddrOutcome`, with link-only and host-index refusals first |
| Topology.IfaceName | nodes.go:209-217 | an interface name is "eth" and the interface number on switches and assets, "ether" and the number plus two on routers |
| Topology.IfaceNamesDiffer | nodes.go:209-217 | the names given to a node's interfaces are pairwise distinct |
| Topology.ParseEther | nodes.go:225-232 | a string without the "ether" prefix gives (0, false) |
| Topology.ParseEtherRouterName | nodes.go:214-216 | `parseEther` reads k+2 back from the name of a router's k-th interface |
| Topology.ParseEtherSwitchName | nodes.go:211-213 | the "eth<k>" names of switches and assets are not router names: `parseEther` gives (0, false) |
| Topology.Agent | nodes.go:254-265 | a node speaks the `chr` dialect iff it is a router |
| Topology.Iface.constructor | nodes.go:219 | the interface records its name, host node, subnet and address |
| Topology.TemplateEntries | nodes.go:382-396 | one template entry per interface, in order, carrying its name, address, network, link_only and NAT flags |
| Topology.Netnode.constructor | nodes.go:123-135 | a node starts with no interfaces, no init script, unfrozen |
| Topology.Netnode.Freeze | nodes.go:139 | the node is frozen |
| Topology.Netnode.AttachNic | nodes.go:183-223 | 9 interfaces already attached give TooManyInterfaces; otherwise an unaddressed link on a NAT subnet gives UnaddressedOutnetLink; a failure changes neither list; success appends one fresh interface named after its position to both the node's and the subnet's lists |
| Topology.Netnode.SetField | nodes.go:234-252 | a frozen node refuses every assignment; "name" takes the value's printed form; "init_script" accepts only a string; any other field is refused; nothing else changes |
| Topology.Netnode.ToTemplate | nodes.go:372-398 | the template carries the node's name, the given public key and one entry per interface, entry i named after interface i |
| Topology.NodeName | nodes.go:37-43 | a node name is refused iff it is longer than 8 bytes of UTF-8, as Go's `len` counts; the default is the type's prefix and the counter |
| Strconv.Utf8Len | nodes.go:38 | Go's `len` of a string: its UTF-8 byte count, between one and four bytes per character |
| Strconv.Utf8LenAppend | nodes.go:38 | the byte count of two strings joined is the sum of their byte counts |
| Strconv.AsciiLen | control.go:74-75 | a string is as many bytes long as it has characters iff it is ASCII |
| Topology.SwitchImageAsWritten | nodes.go:72-75 | as written, an absolute image is kept, the result is absolute under an absolute working directory, and no image gives the working directory itself |
| Topology.SwitchImageNeverEmpty | nodes.go:72-75 | as written, a switch built without an image gets the working directory as its image |
| Topology.SwitchImage | nodes.go:72-75 | a switch's image is empty exactly when none was given, and otherwise as the code computes it |
| Topology.Counters.constructor | nodes.go:118-121 | the network, router and asset counters all start at 1 |
| Topology.Counters.NewRouter | nodes.go:27-49 | names over 8 bytes are refused and take no number; an empty name takes `r<routerCount>` and advances the counter; a fresh router without image, UEFI or media |
| Topology.Counters.NewSwitch | nodes.go:51-84 | as for routers, from the same counter; a fresh UEFI switch with the given media and the corrected `SwitchImage` as its image (see Findings) |
| Topology.Counters.NewAsset | nodes.go:86-109 | names over 8 bytes are refused; an empty name takes `a<assetCount>`; a fresh UEFI asset |
| Topology.NoMatch | nodes.go:341-349 | `nomatch` holds iff no filter accepts the value |
| Topology.Select | nodes.go:308-339 | every item the walk yields is an accepted node value of the input; every accepted node it passes is yielded; no more items than it walks |
| Topology.SelectAppend | nodes.go:308-339 | walking two runs of values one after the other yields the first run's nodes, then the second's: the walk keeps the input order |
| Topology.SelectOne | nodes.go:316-322 | one value yields its node iff it is a node the filters accept |
| Topology.MultiByteNameRefused | nodes.go:38-39 | "routeür1" has 8 characters but 9 bytes and is refused |
| Topology.NodesOfAsWritten | nodes.go:308-339 | as written, every node yielded is one `nomatch` does not reject, taken from the walked values |
| Topology.NodesOf | nodes.go:305-339 | every node yielded is wanted (no filters, or one accepts it) and taken from the walked values: the `boot_order` list when set, else the globals |
| Topology.NodesOfAsWrittenNoFilters | nodes.go:316-336 | as written, `nodesof` without filters yields nothing |
| Topology.NodesOfNoFilters | nodes.go:305-307 | read as documented, `nodesof` without filters yields every node of the walk, in order |
| Topology.NodesOfWithFilters | nodes.go:308-339 | with at least one filter, the corrected and the as-written `nodesof` agree |
| Topology.Dedup | nets.go:199-206 | the de-duplicated list holds every element of the input, nothing else, and no element twice |
| Topology.DedupOrder | nets.go:200-205 | de-duplication keeps elements in the order of their first occurrence |
| Topology.NetsOf | nets.go:197-214 | `netsof` over the corrected `nodesof` (see Findings) yields every subnet attached to a yielded node, once each, in order of first attachment |
| Topology.NetsOfAsWrittenEmpty | nets.go:200 | as written, `netsof` yields no subnet at all |
| Ipv4.Truth | addr.go:17 | an address is true iff it is valid |
| Ipv4.BlockSize | nets.go:173 | a prefix holds at least one address |
| Ipv4.NetworkFacts | nets.go:181 | the network address is the prefix address rounded down to its block, and the block fits in the address space |
| Ipv4.ContainsRange | nets.go:181 | a prefix contains exactly the addresses from its network address to its broadcast address |
| Ipv4.OctetsRoundTrip | nets.go:190-194 | reading an address as four octets and writing it back gives the same address |
| Ipv4.FromOctetsRoundTrip | nets.go:194 | four octets written as an address read back as the same octets |
| Ipv4.Next | nets.go:178-180 | `Next` adds one, and gives the invalid address past 255.255.255.255 or from the invalid address |
| Ipv4.AdvanceValue | nets.go:177-180 | stepping n times adds n, or runs off the address space into the invalid address |
| Ipv4.SetHostBits | nets.go:192 | OR-ing in `^uint32(0) >> bits` sets every host bit: the result is the broadcast address |
| Ipv4.Last | nets.go:189-195 | `last` always gives a valid address |
| Ipv4.LastIsBroadcastMinusOne | nets.go:188-195 | for lengths up to 31, `last` is the broadcast address minus one; for /32 it is the address minus one with 32-bit wrap-around |
| Ipv4.LastIgnoresHostBits | nets.go:190-192 | host bits already set in the prefix address do not change `last` |
| Ipv4.LastIsLastAssignable | nets.go:188 | for lengths up to 31, `last` lies in the prefix, is not the broadcast address, and is the highest such address |
| Ipv4.LastTestVectors | nets_test.go:13-14 | 192.168.0.0/24 gives 192.168.0.254 and 10.10.0.0/16 gives 10.10.255.254 |
| Ipv4.ParseAddr | dhcpopts.go:35 | an address that parses is an IPv4 address |
| Ipv4.ParseFormatAddr | dhclient.go:78 | parsing the printed form of an address gives the address back |
| Ipv4.FormatParseAddr | dhcpopts.go:35 | every text that parses as an address is the printed form of that address |
| Ipv4.ParsePrefix | dhcpopts.go:30 | text without '/' is refused; a prefix that parses has text on both sides of its last '/' |
| Ipv4.FormatParsePrefix | nets.go:42 | every text that parses as a prefix is the printed form of that prefix |
| Ipv4.ParseFormatPrefix | nets.go:42 | parsing the printed form of a prefix gives the prefix back |
| Strconv.FormatNatValue | nodes.go:41 | `%d` prints canonical decimal text denoting the number |
| Strconv.CanonicalIsFormatted | nodes.go:230 | every canonical decimal text is what `%d` prints for its value |
| Strconv.FormatNat | nodes.go:41 | `%d` prints a non-empty string of decimal digits |
| Strconv.FormatNatInjective | nodes.go:41 | different counters print differently |
| Strconv.ParseUint | run_asset.go:17-21 | the empty string is a syntax error; a value parsed fits in the bit size |
| Strconv.ParseUintOk | run_asset.go:17-21 | `ParseUint(s, 10, bits)` succeeds iff s is a non-empty digit string worth less than 2^bits, and then gives that value |
| Strconv.Atoi | nodes.go:230 | `Atoi` reports success only for values representable in 64 bits |
| Strconv.AtoiFormatNat | nodes.go:230 | `Atoi` reads back what `%d` prints, below 2^63 |
| Strconv.LowerHex | addr.go:23 | `%x` prints a non-empty string of lower-case hex digits |
| Strconv.LowerHexValueOf | addr.go:23 | `%x` prints digits that read back as the number, one digit iff below 16, at most two for a byte |
| Strconv.UpperHexBytes | dhcpopts.go:79 | `%X` of a byte slice prints two digits per byte |
| Strconv.UpperHexBytesRoundTrip | dhcpopts.go:79 | `%X` of a byte slice reads back as the same bytes |
| Strconv.SplitOnJoin | dhclient.go:82 | splitting a string at a separator and joining the pieces with it gives the string back |
| Strconv.LastIndexOf | nets.go:42 | the index answered holds the character and no later position does; -1 means the character does not occur |
| Paths.JoinPath | nodes.go:74 | joining skips an empty element, else puts exactly one '/' between the two |
| Paths.JoinUnderAbs | run_vm.go:40-43 | joining under an absolute directory gives an absolute path |
| Starlark.Repr | nodes.go:243 | a string value prints between double quotes; other values print as themselves |
| GuestAgent.Path | run_vm.go:266 | every dialect names a non-empty port |
| GuestAgent.PathsDiffer | run_vm.go:266-293 | the two dialects listen on different ports |
| GuestAgent.Execute | run_vm.go:268-299 | the router payload asks for captured output; the switch payload has path "<script>" |
| GuestAgent.ExecuteCarriesScript | run_vm.go:268-299 | every payload carries its script unchanged, in the dialect it was built for |
| GuestAgent.DefaultInit | run_vm.go:275-289 | both dialects' templates (the switch one at run_vm.go:301-307) open with the loop over the interfaces and end with a newline |
| GuestAgent.InitScript | run_vm.go:193 | the script template is the dialect's template followed by the node's own script, which starts on a line of its own |
| MacAddr.MacBytes | addr.go:23 | `Mac.String` prints three bytes |
| MacAddr.HexTriple | addr.go:23 | `%x:%x:%x` splits at ':' into the three unpadded hex fields, is 5 to 8 characters long, and reads back as the 24-bit number of the three bytes |
| MacAddr.MacString | addr.go:22-24 | reading `Mac.String`'s text back gives the Mac's low 24 bits: the higher bits are dropped |
| MacAddr.MacStringLow24 | addr.go:23 | two Macs print alike iff their low 24 bits agree |
| MacAddr.MacStringVector | addr.go:23 | 0x050AFF prints as "5:a:ff" |
| UserIds.UserNumID | run_asset.go:17-27 | success iff both ids are unsigned decimal strings at most 4294967295, and then exactly those values; a bad uid gives (0, 0, uid error) whatever the gid; a bad gid after a good uid gives (0, 0, gid error) |
| UserIds.UserNumIDFormat | run_asset.go:18-27 | ids printed in decimal parse back to themselves |
| UserIds.SignedIdRefused | run_asset.go:18-20 | a signed user id such as "-1" is refused as a syntax error |
| DhcpOpts.Significant | dhcpopts.go:41 | the number of destination octets sent is the prefix length rounded up to whole octets |
| DhcpOpts.RouteBytes | dhcpopts.go:40-42 | one route encodes as its length byte, the significant octets of its network address with host bits cleared (the corrected line 41, see Findings), and its four gateway octets |
| DhcpOpts.RouteBytesMasked | dhcpopts.go:40-42 | on a destination written without host bits, the as-written and corrected encodings agree |
| DhcpOpts.RouteBytesAsWritten | dhcpopts.go:40-42 | as written, a route encodes as its length byte, the significant octets of the prefix address as parsed, and its four gateway octets |
| DhcpOpts.RouteBytesAsWrittenHostBits | dhcpopts.go:41 | as written, 10.0.0.129/25 is sent with destination octets 10.0.0.129, not 10.0.0.128 |
| DhcpOpts.ParsePair | dhcpopts.go:25-38 | a pair parses iff its network (with "default" read as 0.0.0.0/0) and its gateway both parse |
| DhcpOpts.ParseRoutes | dhcpopts.go:24-39 | a list that parses yields one route per pair |
| DhcpOpts.ParseRoutesErr | dhcpopts.go:30-38 | the first pair that fails decides the error, whatever follows |
| DhcpOpts.EncodingFails | dhcpopts.go:30-38 | a pair that fails after good ones makes the whole call fail with that pair's error, with no partial encoding |
| DhcpOpts.Encoding | dhcpopts.go:14-45 | an empty list is refused; otherwise the list encodes iff every pair parses |
| DhcpOpts.EncodeRoutes | dhcpopts.go:14-45 | the loop that steps over pairs and appends bytes answers exactly `Encoding`: an error for an empty list, else the first parse error or all routes encoded in order |
| DhcpOpts.Masked | dhcpopts.go:11-12 | masking keeps the length and gateway and stays in the prefix |
| DhcpOpts.MaskedDest | dhcpopts.go:41 | the destination octets left out of the encoding are zero in the network address |
| DhcpOpts.MaskedAll | dhcpopts.go:11-12 | every route of the list, in order, with its destination masked to its network address |
| DhcpOpts.DecodeRouteBytes | dhcpopts.go:40-42 | one encoded route decodes as the route with its destination masked |
| DhcpOpts.DecodeRoutes | dhcpopts.go:40-42 | a client reads no route exactly from an empty payload, and every route it reads takes at least five bytes |
| DhcpOpts.DecodeAppend | dhcpopts.go:40-42 | decoding two payloads back to back gives the routes of both |
| DhcpOpts.DecodeEncodeAll | dhcpopts.go:24-44 | a client decoding the payload finds every route, in order, destinations masked |
| DhcpOpts.EncodingDecode | dhcpopts.go:14-45 | whatever `encodeRoutes` answers decodes back to the parsed routes, masked |
| DhcpOpts.Collect | dhcpopts.go:62-74 | a dictionary of string pairs flattens into an even list, two strings per entry |
| DhcpOpts.CollectErr | dhcpopts.go:63-72 | the first entry that is not a pair of strings decides the error |
| DhcpOpts.ClasslessRoutes | dhcpopts.go:54-80 | the builtin answers `ClasslessRoutesOutcome`: the flattened dictionary, encoded, in upper-case hex |
| DhcpOpts.ClasslessRoutesOutcome | dhcpopts.go:54-80 | an empty dictionary is refused; the builtin answers text iff every entry is a pair of strings and the routes encode, and then two hex digits per byte |
| DhcpOpts.ClasslessRoutesHex | dhcpopts.go:75-79 | the text answered reads back as the bytes `encodeRoutes` produced |
| DhcpOpts.ClasslessRoutesEmpty | dhcpopts.go:18-20 | an empty dictionary is refused |
| DhcpOpts.DefaultRouteVector | dhcpopts_test.go:13 | the default route via 192.0.2.1 encodes as 00C0000201 |
| DhcpOpts.ClassARouteVector | dhcpopts_test.go:14 | 10.0.0.0/8 via 10.0.0.1 encodes as 080A0A000001 |
| DhcpOpts.SubnetRouteVectorOne | dhcpopts_test.go:15 | 192.0.2.0/24 via 192.0.2.1 encodes as 18C00002C0000201 |
| DhcpOpts.SubnetRouteVector | dhcpopts_test.go:16 | 192.0.2.0/24 via 192.0.2.110 encodes as 18C00002C000026E |
| DhcpOpts.TwoRoutesVector | dhcpopts_test.go:16 | the default route then 192.0.2.0/24 encode as 00C000020118C00002C000026E |
| DhcpOpts.PairParses | dhcpopts.go:25-38 | a network given as the printed form of a prefix and a gateway given as the printed form of an address parse back to that route |
| DhcpOpts.TestAddrTexts | dhcpopts_test.go:13-16 | 192.0.2.1, 192.0.2.110 and 10.0.0.1 are the printed forms of the test's gateways |
| DhcpOpts.TestPrefixTexts | dhcpopts_test.go:13-16 | 0.0.0.0/0, 192.0.2.0/24 and 10.0.0.0/8 are the printed forms of the test's networks |
| DhcpOpts.EncodingOnePair | dhcpopts.go:14-45 | a list of one pair encodes as that pair's route, or fails with its parse error |
| DhcpOpts.EncodingTwoPairs | dhcpopts.go:14-45 | a list of two pairs that parse encodes as the two routes one after the other |
| DhcpOpts.ParseTwoPairs | dhcpopts.go:24-38 | two pairs that parse give their two routes in order |
| DhcpOpts.EncodeTwo | dhcpopts.go:40-42 | two routes encode one after the other |
| DhcpOpts.CollectOne | dhcpopts.go:62-74 | a dictionary of one pair of strings flattens into those two strings |
| DhcpOpts.CollectTwo | dhcpopts.go:62-74 | a dictionary of two pairs of strings flattens into the four strings in insertion order |
| DhcpOpts.UpperHexBytesAppend | dhcpopts.go:79 | `%X` of two byte slices joined is their two texts joined |
| DhcpOpts.DefaultRouteHex | dhcpopts_test.go:13 | `%X` of 00 C0 00 02 01 is 00C0000201 |
| DhcpOpts.ClassARouteHex | dhcpopts_test.go:14 | `%X` of 08 0A 0A 00 00 01 is 080A0A000001 |
| DhcpOpts.SubnetDestHex | dhcpopts_test.go:15-16 | `%X` of 18 C0 00 02 is 18C00002 |
| DhcpOpts.GatewayOneHex | dhcpopts_test.go:15 | `%X` of C0 00 02 01 is C0000201 |
| DhcpOpts.GatewayTwoHex | dhcpopts_test.go:16 | `%X` of C0 00 02 6E is C000026E |
| DhcpOpts.SubnetRouteHexOne | dhcpopts_test.go:15 | `%X` of the encoded 192.0.2.0/24 via 192.0.2.1 is 18C00002C0000201 |
| DhcpOpts.SubnetRouteHex | dhcpopts_test.go:16 | `%X` of the encoded 192.0.2.0/24 via 192.0.2.110 is 18C00002C000026E |
| DhcpOpts.DefaultRouteText | dhcpopts_test.go:13 | the list ["default", "192.0.2.1"] encodes as 00 C0 00 02 01, and the builtin answers 00C0000201 for the dictionary of that pair |
| DhcpOpts.ClassARouteText | dhcpopts_test.go:14 | the list ["10.0.0.0/8", "10.0.0.1"] encodes as 08 0A 0A 00 00 01, and the builtin answers 080A0A000001 |
| DhcpOpts.SubnetRouteText | dhcpopts_test.go:15 | the list ["192.0.2.0/24", "192.0.2.1"] encodes as 18 C0 00 02 C0 00 02 01, and the builtin answers 18C00002C0000201 |
| DhcpOpts.TwoRoutesEncoding | dhcpopts_test.go:16 | the four-string list encodes as the default route's bytes followed by the subnet route's |
| DhcpOpts.TwoRoutesJoin | dhcpopts_test.go:16 | the two routes' bytes and texts join into the expected payload and 00C000020118C00002C000026E |
| DhcpOpts.OutcomeOfSteps | dhcpopts.go:62-79 | the builtin answers the hex text of the encoding of the flattened dictionary |
| DhcpOpts.TwoRoutesText | dhcpopts_test.go:16 | the list ["default", "192.0.2.1", "192.0.2.0/24", "192.0.2.110"] encodes as the test expects, and the builtin answers 00C000020118C00002C000026E for the two-entry dictionary |
| VmLaunch.ResolveImage | run_vm.go:23-47 | the base is the node's image or its type's default; an absolute base is kept; a relative one is looked up in the images directory, then the working directory, else an error |
| VmLaunch.ResolvedIsAbsolute | run_vm.go:34-47 | with absolute search directories, a resolved image is absolute |
| VmLaunch.ImageBase | run_vm.go:23-33 | a node's own image is used when set; otherwise a router defaults to the MikroTik image and a switch to the CyberOS image |
| VmLaunch.ChardevArgInjective | run_vm.go:93 | different ports give different agent sockets |
| VmLaunch.FixedArgs | run_vm.go:86-98 | every VM gets the same 21 leading arguments |
| VmLaunch.OptionalDrives | run_vm.go:99-104 | the firmware drive is added iff UEFI, the media drive iff media is set |
| VmLaunch.NicArgFd | run_vm.go:112 | a card argument names its file descriptor, which reads back as the number |
| VmLaunch.RndMac | run_vm.go:251-255 | a random MAC suffix is 5 to 8 characters and reads back as the 24-bit number of the three random bytes |
| VmLaunch.NicArgs | run_vm.go:110-114 | two arguments per interface |
| VmLaunch.NicArgsAt | run_vm.go:110-114 | card i is "-nic" followed by tap fd 3+i |
| VmLaunch.ExtraFiles | run_vm.go:123-125 | one extra file per interface |
| VmLaunch.ExtraFilesAt | run_vm.go:123-125 | extra file i is the tap of interface i |
| VmLaunch.QemuArgs | run_vm.go:86-114 | the command line opens with the fixed arguments, and the cards (or "-nic none") follow the fixed arguments and the optional drives |
| VmLaunch.TapFdAlignment | run_vm.go:106-125 | card i uses fd 3+i, and fd 3+i is interface i's tap |
| VmLaunch.NoInterfaces | run_vm.go:107-109 | a node without interfaces gets "-nic none" and no extra file |
| VmLaunch.Missing | run_vm.go:163-185 | the names still missing are the wanted ones minus those reported; none is missing iff every wanted name was reported |
| VmLaunch.WaitInterfaces | run_vm.go:158-191 | the retry loop answers `WaitUp` with five tries |
| VmLaunch.PollStatus | run_vm.go:216-248 | the polling loop answers `Poll` with ten polls |
| VmLaunch.ExecGuest | run_vm.go:138-249 | the result and events are `GuestOutcome` |
| VmLaunch.RunInitScript | run_vm.go:193-248 | rendering, running and polling the script answer `RunScript` |
| VmLaunch.SwitchNotProvisioned | run_vm.go:143-146 | a switch is left alone after the initial second and succeeds |
| VmLaunch.WaitUp | run_vm.go:158-191 | every try starts by listing the interfaces; a ready answer comes from one of the tries taken |
| VmLaunch.WaitUpBounded | run_vm.go:158-191 | waiting asks at most once per try and never skips an answer |
| VmLaunch.WaitUpTimeout | run_vm.go:171-191 | waiting times out iff every try is a miss; it is ready only once a listing shows every wanted name |
| VmLaunch.BackoffSchedule | run_vm.go:171-190 | with no useful answer, five listings with waits of 4, 8, 16 and 32 seconds, then "timeout waiting for interfaces" |
| VmLaunch.AgentErrorsTimeOut | run_vm.go:171-191 | an agent answering only error objects never satisfies a node with interfaces |
| VmLaunch.Poll | run_vm.go:216-248 | every poll starts with a status request; success needs a poll left |
| VmLaunch.PollBounded | run_vm.go:216 | polling asks at most once per poll left |
| VmLaunch.PollSucceeds | run_vm.go:216-248 | success iff the script is seen exiting with 0 within the polls, after being seen running at every earlier poll |
| VmLaunch.ScriptFailureMessage | run_vm.go:239-243 | a failing script is reported with its error output, or its standard output when that is empty |
| VmLaunch.RunScript | run_vm.go:193-248 | running the script sends at most 11 requests: one `guest-exec` and at most ten status polls |
| VmLaunch.Provision | run_vm.go:154-248 | waiting for the interfaces and running the script send at most 16 requests |
| VmLaunch.GuestOutcome | run_vm.go:138-249 | a whole provisioning sends at most 16 requests: five listings, one `guest-exec` and ten status polls |
| VmLaunch.Boot | run_vm.go:85-135 | the port is taken; there is a handle iff QEMU started; without one the error is the start error and nothing was exchanged; with one the only error is the guest's |
| VmLaunch.Stages | run_vm.go:22-83 | the stages before the port succeed exactly when the image resolves, the overlay disk is created over it, both account ids are numeric and the communication structures are set up; success gives the account's numeric ids, and a failure is never the guest's or QEMU's |
| VmLaunch.Prepare | run_vm.go:23-83 | running the stages in order, stopping at the first failure, gives exactly `Stages`; on success the overlay disk's path is the temporary directory joined with the node name and `.qcow2` |
| VmLaunch.LaunchStages | run_vm.go:22-85 | each stage before the port is taken fails without a handle and without a port, or boots with the next port and the account's ids |
| VmLaunch.Launch | run_vm.go:20-136 | no handle means an error before QEMU ran and no exchange; a handle means QEMU runs, the port was taken and any error is the guest's; no error means a handle |
| VmLaunch.LaunchPortAndIds | run_vm.go:85-131 | a started VM's agent socket and the dialled port are both the port after the last one, and QEMU runs under the account's ids |
| VmLaunch.BootPort | run_vm.go:93-131 | the command line carries the agent port that provisioning dials |
| VmLaunch.FixedArgsChardev | run_vm.go:93 | the agent chardev is the 12th and 13th fixed argument |
| VmLaunch.GuestDials | run_vm.go:148 | provisioning a router or asset dials the given port right after the initial wait |
| VmLaunch.BuildArgs | run_vm.go:86-114 | the appended arguments are `QemuArgs` |
| VmLaunch.BuildNics | run_vm.go:106-114 | the appended cards are `NicSection` |
| VmLaunch.BuildExtraFiles | run_vm.go:123-125 | the appended files are `ExtraFiles` |
| VmLaunch.StartVM | run_vm.go:115-135 | starting from a port answers `Boot` |
| VmLaunch.Launcher.constructor | build.go:347 | `TelnetNum` starts at 23 |
| VmLaunch.Launcher.RunVM | run_vm.go:22-136 | the handle, error and events are `Launch` at the old counter; the counter advances exactly when the launch got as far as taking a port |
| Control.Repeat | control.go:62-64 | n copies of the character |
| Control.Pad | control.go:74-82 | the text, then spaces up to one byte less than the column width, counting the text in UTF-8 bytes as Go's `len` does |
| Control.MultiBytePadding | control.go:74 | "rüter" (5 characters, 6 bytes) is padded to 8 characters, 9 bytes, in the name column |
| Control.Cell | control.go:74-82 | a cell (lead, padded text, border) is as many bytes as its lead plus the column width |
| Control.CellLayout | control.go:74-82 | a cell shows its lead, its text, spaces, then the border |
| Control.FixedWidths | control.go:62-68 | the border and title lines are 40 bytes, the blank name and type cells 23, the blank address cell 17 |
| Control.PrettyType | control.go:93-104 | a node type's label is non-empty, ASCII (as many bytes as characters) and shorter than the type column |
| Control.PrettyTypeLabels | control.go:93-104 | different node types get different labels |
| Control.HeadWidth | control.go:74-75 | the name and type cells are 23 bytes wide |
| Control.HeadCells | control.go:74-75 | "+ ", the name and spaces up to the border at byte 11, then "\| ", the type and spaces up to the border at byte 22; a name with multi-byte characters gets fewer spaces |
| Control.RowLinesCount | control.go:76-86 | a node takes one line per interface, and one line when it has none |
| Control.RowLinesWidth | control.go:74-86 | every line of a node's group is 40 bytes wide |
| Control.RowLinesLayout | control.go:74-86 | address k is on line k of the node's group from byte 24; the first line carries name and type; later lines have blank name and type cells; no interfaces give a blank address cell |
| Control.MoreLineLayout | control.go:79-83 | a further address has its own line with blank name and type cells |
| Control.AddrCellText | control.go:78-82 | after a 23-byte prefix, the address cell shows a space, the address, spaces and the border, and the line is 40 bytes |
| Control.BodyLinesWidth | control.go:71-87 | every node line is 40 bytes wide |
| Control.BodyLinesAppend | control.go:71-87 | the groups of lines follow the order of the nodes |
| Control.TableWidth | control.go:57-88 | every line of the table is exactly 40 bytes wide |
| Control.Addrs | control.go:77-80 | one address per interface, in interface order |
| Control.Rows | control.go:71-73 | one row per running node, in order |
| Control.Emit | control.go:67-88 | each line reaches the console as one line, in order |
| Control.DoneClosedLast | control.go:88-89 | the done channel is closed once, after the last line |
| Control.Console.constructor | control.go:47 | the console starts with no output |
| Control.Console.WriteLine | control.go:67 | the console receives the line |
| Control.Console.WriteRow | control.go:72-86 | the console receives the node's group of lines |
| Control.Console.WriteMoreLines | control.go:79-83 | the console receives one line per address after the first, in order |
| Control.Console.FormatTable | control.go:47-91 | the console receives border, title, border, each node's group in order, border, then the closing of done |
| Control.FailedMembers | control.go:17-23 | a node is warned about iff it was closed and its close failed |
| Control.FailedAppend | control.go:17-23 | warnings come in the order nodes are closed |
| Control.Shutdown.constructor | control.go:19 | no node has been closed and no warning given yet |
| Control.Shutdown.TermLab | control.go:17-23 | every node is closed once, in order; exactly the failing ones are warned about; nothing stops the loop |
| Dhclient.NameserverLines | dhclient.go:77-79 | one nameserver line per server |
| Dhclient.ResolvLines | dhclient.go:72-84 | the file has one line for a non-empty domain, one per name server, and one for a non-nil search list |
| Dhclient.TerminatedAppend | dhclient.go:73-85 | the text of two line lists is the text of each, in order |
| Dhclient.Buffer.constructor | dhclient.go:73 | a new buffer is empty |
| Dhclient.Buffer.WriteString | dhclient.go:75 | the buffer grows by the text written |
| Dhclient.WriteDNSSettings | dhclient.go:72-86 | the text written is the resolver lines, each ended by a newline, and nothing else |
| Dhclient.ResolvLayout | dhclient.go:73-84 | the domain line comes first iff the domain is non-empty; nameserver i follows in lease order; the search line comes last iff the list is non-nil |
| Dhclient.DomainLineIff | dhclient.go:74-76 | the file opens with a domain line iff the domain is non-empty |
| Dhclient.SearchLineIff | dhclient.go:80-84 | the file ends with a search line iff the list is non-nil |
| Dhclient.EmptySearchList | dhclient.go:80-84 | a non-nil empty list still writes "search \n" |
| Dhclient.NameserverParses | dhclient.go:78 | each nameserver line's address parses back to its server |
| Dhclient.SplitTerminated | dhclient.go:73-85 | splitting the text at newlines gives the lines back |
| Dhclient.ResolvLinesRoundTrip | dhclient.go:73-85 | without newlines in the domain or labels, the file splits into exactly the resolver lines |
| Dhclient.SplitJoin | dhclient.go:82 | labels without the separator are recovered by splitting their join |
| Dhclient.SearchWordsRoundTrip | dhclient.go:82 | the search labels are recovered by splitting the search list at spaces |
| Dhclient.MaskDefault | dhclient.go:38-41 | a lease without a subnet mask is applied as /32 |
| Dhclient.RouteIff | dhclient.go:49-58 | a route is set iff the address was set and the lease names a router, and it goes through the first router |
| Dhclient.ResolvWritten | dhclient.go:60-69 | the resolver file is written iff the address and any route were set, from the lease's servers, search list and domain |
| Dhclient.LeaseRun | dhclient.go:17-70 | the run succeeds iff every step does, and then the calls are address, route if any, file |
| Dhclient.Host.constructor | dhclient.go:17 | the host starts with no calls made |
| Dhclient.Host.Lease4 | dhclient.go:17-70 | the calls made and the error returned are `LeaseRun` |

## Left out

- IPv6: an IPv6 address or prefix is treated as text that does not parse. `ParseAddr` and `ParsePrefix` only cover IPv4.
- Starlark argument unpacking (`UnpackArgs`), `Hash`, `String`, `Type`, `Attr` and `AttrNames`: library glue without rules of its own. Type errors from unpacking are not modelled.
- The iteration order of the script's globals dictionary: the walk takes it as an input sequence.
- A `boot_order` that is not a list: not modelled (the code iterates a nil list).
- Topology.Select: models `nodesof`'s early stop when the consumer stops asking only as "the consumer takes everything".
- Logging (`slog`) and console printing: the shutdown's warnings are a sequence. The "--- script results ---" printout is an event.
- Sleeps are events carrying their duration; nothing waits.
- Go's `text/template` rendering of the init script is an input function of the model. Only "default template, then the node's own script" is modelled.
- SSH key generation (ssh.go) is out of scope. `ToTemplate` takes the public key as a parameter.
- The QMP client (qmp.go) is not part of this model. The agent is a sequence of answers: Timeout, Failure, AgentError and Answered.
  - An answer past the end of that sequence is a timeout.
  - An error object decodes to the zero reply and counts as success, as qmp.go:66-69 does.
- VmLaunch.RndAt: `rndmac`'s random bytes are an input sequence, and a draw past its end reads as zero bytes.
- `qemu-img`, `chown`, `mkfifo`, the QEMU start, `Process.Kill`/`Wait` and `netns.DeleteNamed` are host answers or single effects. A close's success is an input predicate.
- VmLaunch.Launcher.RunVM: requires an asset to have an image, because `RunVM` panics on an asset without one (run_vm.go:25-27).
- Control.Console.FormatTable: the writer is modelled as whole lines. The several `Fprint` calls that build one line are joined into that line.
- Control.Console.FormatTable: the address text is an input function `show`. The code calls `.Addr()` on an `Addr` (control.go:77), which has no such method.
- Control.Console.FormatTable: requires names under 10 and addresses under 16 bytes of UTF-8, where the code's negative `strings.Repeat` count panics.
- Topology.NetsOf: models `netsof` over the corrected `nodesof`, where a walk with no filters takes every node. The code as written walks no node and yields no subnet (Findings; `Topology.NetsOfAsWrittenEmpty`).
- Topology.Counters.NewSwitch: gives the switch the corrected `SwitchImage`, which keeps an empty image empty. The code as written joins it to the working directory (Findings; `Topology.SwitchImageAsWritten`).
- DhcpOpts.RouteBytes: models the corrected destination octets, taken from the network address with host bits cleared. The code as written sends the prefix address as parsed (Findings; `DhcpOpts.RouteBytesAsWritten`).
- DhcpOpts.EncodeRoutes: encodes each route with the corrected `RouteBytes`, so a destination with host bits set is sent masked, unlike the code as written.
- DhcpOpts.ClasslessRoutes: answers the hex of the corrected encoding, as `DhcpOpts.EncodeRoutes` above.
- Control.PrettyType: the panic on an unknown type cannot happen, because node types form a closed set.
- Dhclient.Host.Lease4: the DHCP exchange, the netlink calls and the file write are answers in `Env`.
- Dhclient.Host.Lease4: a present domain-search option is modelled as its label list, which is never nil.
- Paths.JoinPath: `filepath.Join`'s final lexical clean-up (removing "..", "." and doubled slashes) is not modelled.
- Starlark.Repr: string escapes in printed values are not modelled.
- The odd-length route list that `encodeRoutes` panics on is a precondition (`DhcpOpts.EncodeRoutes`). The builtin always passes pairs.
- `Addr.String` (addr.go:16) calls itself without end and is not modelled.
- build.go's variants of `RunVM` and `ExecGuest`, the command-line programs, and the namespace and bridge plumbing are not part of this model.
- UserIds.UserNumID: errors carry the failing id and its kind, not Go's wrapped error text.

## Findings

| source | as written | input that shows it | evidently intended | confidence | as-written member | corrected member |
|---|---|---|---|---|---|---|
| nodes.go:318 | `nodesof` skips a node when `nomatch(filters, n)` holds, and `nomatch` of an empty filter list is true | `netsof(globals)` calls `nodesof` with no filters, so it walks no node and yields no subnet, whatever the script declares | no filters means every node (nodes.go:305-307), so `netsof` yields the attached subnets | not executed | Topology.NetsOfAsWrittenEmpty | Topology.NetsOf |
| nodes.go:72-75 | a switch's image is joined to the working directory even when no image was given | `CyberSwitch(name="s")` gets the working directory as its image, so `RunVM`'s CyberOS default (run_vm.go:30-31) is never used | an empty image stays empty so that the default image applies | not executed | Topology.SwitchImageNeverEmpty | Topology.SwitchImage |
| dhcpopts.go:41 | the destination octets are taken from the prefix address as parsed, host bits included | `["10.0.0.129/25", "10.0.0.1"]` sends 19 0A 00 00 81 … instead of 19 0A 00 00 80 … | "netmasked network addresses" (dhcpopts.go:11-12, RFC 3442 section 3) | not executed | DhcpOpts.RouteBytesAsWrittenHostBits | DhcpOpts.RouteBytes |
