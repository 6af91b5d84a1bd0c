# agent-sandbox policy enforcement, modelled in Dafny

agent-sandbox confines a coding agent behind two layers.

- **The firewall initialiser** (`images/base/init-firewall.py`) builds the container's firewall.
  - It loads a JSON policy and saves the Docker DNS NAT rules.
  - It flushes iptables, restores those rules and installs the foundation rules.
  - It creates the `allowed-domains` ipset and fills it with GitHub's published IPv4 ranges and the addresses of the listed domains.
  - It allows the host's `/24`, sets every chain policy to DROP and appends the final rules that reject everything else.
  - It probes that `example.com` is unreachable and an allowed endpoint is reachable.
  - Any failure ends `main` with status 1.
- **The proxy addon** (`images/proxy/addons/enforcer.py`) builds an allowlist from a YAML policy: exact host names, plus wildcard suffixes that match at a label boundary.
  - In enforce mode it answers blocked CONNECTs and plain-HTTP requests with a 403.
  - It logs traffic unless the log level is `quiet`.

The model is organised in modules:

- `Results`: `Option`, `Result`, and `Outcome` (pass or fail).
- `Text`: the Python string operations the scripts use, namely `split(sep)`, `join`, `strip()`, `split()`, `startswith` and `endswith`.
- `Ipaddress`: IPv4 addresses as numbers below 2^32, and networks as a base and a prefix length (section 3.1 of RFC 4632). It covers host-bit clearing and supernets.
- `Collapse`: Python's `collapse_addresses`.
- `AddrText`: the IPv4 text syntax that `ip_address`/`ip_network` accept and that `str()` writes.
- `FirewallText`: the pure decisions of the initialiser: the policy checks, the Docker DNS filter, the `ip route` scan and the verification endpoint.
- `Resolve`: `fetch_github_ips` and `resolve_domain`, over oracles for the meta document and name resolution.
- `FirewallSpec`: the abstract kernel state, the commands and each phase of `main` as a list of steps.
  - There are three kinds of step: checked (`run_cmd`), unchecked (`run_cmd_unchecked`), and a raise.
  - `Exec` runs steps until the first raise.
- `FirewallProps`: what the phases and `main` guarantee.
- `FirewallInit`: the class `Firewall`, which holds the kernel state and runs the phases step by step. Each method is proved equal to `Exec` of its steps.
- `EnforcerSpec`: the allowlist table, the decision, start-up as a value, and the hooks.
- `Enforcer`: the class `PolicyEnforcer`, whose fields are updated in place. Each method is proved against `EnforcerSpec`.

The outside world is a parameter:

- Every command's exit status, the text of `iptables-save -t nat` and `ip route`, and GitHub's meta document are fields of a `Host` value.
- So are name resolution and curl's reachability.
- The proxy's mode, log level and policy source are constructor parameters.
- Log output is a sequence of entries that the methods append to.

## Model

| member | source | states |
|---|---|---|
| Text.Split | images/base/init-firewall.py:95 | `str.split(sep)`: at least one piece, and no piece contains the separator |
| Text.JoinSplit | images/base/init-firewall.py:95-96 | joining the pieces of a split with the same separator gives back the text |
| Text.SplitJoin | images/base/init-firewall.py:127 | splitting a join of separator-free pieces gives back the pieces |
| Text.WordsShape | images/base/init-firewall.py:130 | `str.split()` gives non-empty words free of whitespace |
| Text.WordsJoin | images/base/init-firewall.py:130 | whitespace-free words joined by whitespace split back into exactly those words, in order |
| Text.WordsStrip | images/base/init-firewall.py:127-130 | `s.split()` gives the same words as `s.strip().split()`, so the words ignore leading and trailing whitespace |
| Ipaddress.Masked | images/base/init-firewall.py:58 | `strict=False` clears the host bits: the result is canonical, has the same prefix length, contains the given base, and leaves a canonical network unchanged |
| Ipaddress.Supernet | images/base/init-firewall.py:187 | the supernet is canonical, one bit shorter (or the same network for `/0`), and holds the network |
| Ipaddress.ContainsByQuotient | images/base/init-firewall.py:187 | an address is in a canonical network iff it has the network's quotient by the block size |
| Ipaddress.Laminar | images/base/init-firewall.py:187 | two canonical networks are either disjoint or nested |
| Ipaddress.HalvesCoverSupernet | images/base/init-firewall.py:187 | two distinct networks with the same supernet cover every address of that supernet |
| Collapse.Sorted | images/base/init-firewall.py:187 | the networks of a set in Python's network order: a strictly ascending permutation of the set |
| Collapse.LeastUnique | images/base/init-firewall.py:187 | the network ordering is total, so a set's least network is unique |
| Collapse.LeastExists | images/base/init-firewall.py:187 | every non-empty set of networks has a least network |
| Collapse.MergeSubnetsSound | images/base/init-firewall.py:187 | the supernet-merging phase keeps each stored network under its own supernet and neither adds nor loses an address |
| Collapse.DropSubsumedSound | images/base/init-firewall.py:187 | the walk keeps only input networks, in ascending disjoint order, and loses no address |
| Collapse.AscendingDisjoint | images/base/init-firewall.py:187 | networks that each end before the next begins share no address |
| Collapse.CollapseSound | images/base/init-firewall.py:186-189 | the collapsed list covers exactly the input's addresses, is ascending and pairwise disjoint, and has no two halves of one supernet left |
| AddrText.DecimalString | images/base/init-firewall.py:189 | a number's decimal text is a non-empty string of digits |
| AddrText.DecimalRoundTrip | images/base/init-firewall.py:189 | reading back a number's decimal text gives the number |
| AddrText.DecimalStringOfValue | images/base/init-firewall.py:49 | digit text without a leading zero is the decimal text of its value |
| AddrText.ParseOctet | images/base/init-firewall.py:49 | an accepted octet is at most 255 |
| AddrText.NetmaskLen | images/base/init-firewall.py:58 | a prefix length is found iff its netmask is the given mask |
| AddrText.MaskPrefix | images/base/init-firewall.py:58 | a dotted mask gives a prefix length iff it is a netmask or a hostmask, and a netmask is always read as a netmask first |
| AddrText.ParseNetwork | images/base/init-firewall.py:55-61 | `ip_network(s, strict=False)` returns a canonical network |
| AddrText.OctetRoundTrip | images/base/init-firewall.py:46-52 | every byte's decimal text parses back to the byte |
| AddrText.AddrRoundTrip | images/base/init-firewall.py:46-52 | every address's text is a valid IPv4 address that parses back to it |
| AddrText.AddrTextUnique | images/base/init-firewall.py:46-52 | a valid address text is the text of the address it denotes |
| AddrText.NetworkRoundTrip | images/base/init-firewall.py:55-61 | the text of a canonical network parses back to the same network |
| AddrText.NetworkTextMasked | images/base/init-firewall.py:55-61 | any address with any prefix length parses to that address's network with the host bits cleared (`strict=False`), and a bare address parses as its `/32` |
| FirewallText.LoadPolicy | images/base/init-firewall.py:64-88 | each error in the source's order: missing file, bad JSON, not an object. Success iff an object whose `services` and `domains` are lists when present |
| FirewallText.LoadPolicyRoundTrip | images/base/init-firewall.py:80-88 | a policy written as a document loads back as itself; absent keys load as empty lists |
| FirewallText.DnsLines | images/base/init-firewall.py:95 | keeps exactly the lines containing `127.0.0.11`; a single line is kept iff it contains it |
| FirewallText.DnsLinesAppend | images/base/init-firewall.py:95 | the filter keeps line order and duplicates: the kept lines of two consecutive runs are each run's kept lines, in turn |
| FirewallText.DockerDnsRulesLines | images/base/init-firewall.py:91-97 | the saved text splits back into exactly the kept lines |
| FirewallText.RuleLineCommands | images/base/init-firewall.py:127-131 | at most one command per line, each being `iptables -t nat` plus words; a single line gives its words' command iff it is non-empty |
| FirewallText.RuleLineCommandsAppend | images/base/init-firewall.py:127-131 | the commands of consecutive runs of lines are each run's commands, in line order |
| FirewallText.RuleLineCommandsOfLines | images/base/init-firewall.py:127-131 | non-empty lines give exactly one command each, with that line's words, in line order |
| FirewallText.RestoreCommands | images/base/init-firewall.py:114-131 | no command iff the rules are empty; otherwise the two `-N` chain commands first, then the line commands of the stripped text |
| FirewallText.RestoreSavedLines | images/base/init-firewall.py:114-131 | restoring the newline join of non-blank lines creates the two chains, then one command per line with exactly that line's words |
| FirewallText.SaveRestore | images/base/init-firewall.py:91-131 | restoring what was saved creates the two chains, then one command per Docker DNS line of the dump, in dump order, with exactly that line's words |
| FirewallText.DefaultGateway | images/base/init-firewall.py:247-255 | a gateway is found iff some line starts with `default` and has at least three words |
| FirewallText.DefaultGatewayFirst | images/base/init-firewall.py:247-253 | the gateway is the third word of the first such line |
| FirewallText.FindHostIp | images/base/init-firewall.py:247-253 | the scan loop with `break` returns the gateway of the first such line |
| FirewallText.HostNetworkOfParts | images/base/init-firewall.py:259-263 | four runs of digits give the first three runs plus `.0/24`, with octet ranges unchecked |
| FirewallText.HostNetworkOfAddress | images/base/init-firewall.py:259-263 | for a real address, the derived text is the `/24` network that holds it |
| FirewallText.VerifyEndpoint | images/base/init-firewall.py:300-313 | GitHub's zen endpoint iff `github` is a service; otherwise the first domain; none iff neither exists |
| Resolve.MissingKey | images/base/init-firewall.py:169-172 | reports the first of `web`, `api`, `git` that is absent, and none iff all three are present |
| Resolve.FirstBad | images/base/init-firewall.py:176-182 | reports the first entry that is neither IPv6-like nor a valid CIDR, and none iff there is no such entry |
| Resolve.NetworksOf | images/base/init-firewall.py:186 | the parsed networks are canonical |
| Resolve.FormatAll | images/base/init-firewall.py:189 | `str()` of each network, in order |
| Resolve.GithubCidrs | images/base/init-firewall.py:154-189 | failed fetch gives an error; missing key gives that key's error; otherwise success iff no bad entry |
| Resolve.FetchGithubIps | images/base/init-firewall.py:154-189 | the method's result equals `GithubCidrs` |
| Resolve.CheckKeys | images/base/init-firewall.py:169-172 | the key-check loop gives `MissingKey` |
| Resolve.CollectAll | images/base/init-firewall.py:175-183 | the nested loops stop at the first bad entry; otherwise they collect every IPv4 entry of the three lists |
| Resolve.CollectIPv4 | images/base/init-firewall.py:177-183 | the inner loop skips `:` entries, stops at the first bad one, and adds the rest to the set |
| Resolve.FirstBadConcat | images/base/init-firewall.py:176-183 | across consecutive lists, the first bad entry is the first list's if it has one |
| Resolve.IPv4EntriesConcat | images/base/init-firewall.py:175-183 | the collected set of consecutive lists is the union of theirs |
| Resolve.GithubCidrsSound | images/base/init-firewall.py:154-189 | on success every returned string is a valid CIDR; the parsed list is canonical, ascending, disjoint and unmergeable, and covers exactly the addresses of the document's IPv4 entries |
| Resolve.Dedup | images/base/init-firewall.py:198 | `list(set(...))`: the same elements, without duplicates |
| Resolve.FirstNotIPv4 | images/base/init-firewall.py:203-205 | none iff every address is IPv4; otherwise an invalid member |
| Resolve.ResolveDomain | images/base/init-firewall.py:192-209 | a resolver failure names the domain; success iff resolution gives a non-empty list of IPv4 addresses; the result then has the same elements without duplicates |
| FirewallSpec.Unchecks | images/base/init-firewall.py:123-131 | each command run unchecked, in order |
| FirewallSpec.AppendSteps | images/base/init-firewall.py:137-146 | one checked append per rule, in order |
| FirewallSpec.AddSteps | images/base/init-firewall.py:212-214 | one checked `ipset add` per entry, in order |
| FirewallProps.ExecAppend | images/base/init-firewall.py:328-341 | running two phases is running the first, then the second only if the first raised nothing |
| FirewallProps.FailClosed | images/base/init-firewall.py:328-347 | after a raise, later steps change nothing |
| FirewallProps.PassSplit | images/base/init-firewall.py:328-341 | a run that raised nothing raised nothing in its first part, and ends where the second part leaves it |
| FirewallProps.PlannedAppend | images/base/init-firewall.py:335-336 | the planned entries of consecutive phases are concatenated |
| FirewallProps.PlannedAdds | images/base/init-firewall.py:212-214 | the adds of a list plan exactly that list |
| FirewallProps.AddsRun | images/base/init-firewall.py:217-240 | additions grow the ipset by a prefix of the plan, all of it when nothing raised, and change nothing else |
| FirewallProps.AddsSuccess | images/base/init-firewall.py:217-240 | additions that raise nothing add exactly the plan |
| FirewallProps.ServicesPlan | images/base/init-firewall.py:217-229 | `process_services` only adds GitHub ranges, and adds nothing without a `github` entry |
| FirewallProps.DomainsPlan | images/base/init-firewall.py:232-240 | `process_domains` only adds valid IPv4 addresses resolved for a listed domain |
| FirewallProps.NatSideRun | images/base/init-firewall.py:114-131 | unchecked NAT-side commands never raise and leave the policies, filter rules and ipset alone |
| FirewallProps.RestoreNatSide | images/base/init-firewall.py:114-131 | restoring the DNS rules consists only of unchecked NAT-side commands |
| FirewallProps.RestoreCommandsNatSide | images/base/init-firewall.py:123-131 | every restore command creates a chain or appends a NAT rule |
| FirewallProps.FlushRun | images/base/init-firewall.py:100-111 | a flush that raised nothing empties the filter table and keeps the policies |
| FirewallProps.AppendRun | images/base/init-firewall.py:134-146 | appends that raised nothing add exactly their rules, in order, at the end of the filter table |
| FirewallProps.HostNetworkRun | images/base/init-firewall.py:243-267 | success implies a gateway line and a derived `/24`, whose two rules are appended |
| FirewallProps.ApplyRun | images/base/init-firewall.py:270-285 | success sets the three policies to DROP and appends the final rules |
| FirewallProps.VerifyRun | images/base/init-firewall.py:290-321 | verification changes no state. It passes iff the blocked site is unreachable and the chosen endpoint, if any, is reachable |
| FirewallProps.ChainRules | images/base/init-firewall.py:137-146 | the rules of one chain, in order |
| FirewallProps.OutputChain | images/base/init-firewall.py:134-285 | the OUTPUT chain: DNS, SSH, loopback, host net, ESTABLISHED, match-set ACCEPT, then REJECT last |
| FirewallProps.FoundationOutput | images/base/init-firewall.py:137-146 | the OUTPUT rules among the foundation rules |
| FirewallProps.FinalOutput | images/base/init-firewall.py:278-285 | the OUTPUT rules among the final rules end with the REJECT |
| FirewallProps.ResetRun | images/base/init-firewall.py:330-332 | save, flush and restore, when they raise nothing, leave the filter table empty and the policies as they were |
| FirewallProps.SetupRun | images/base/init-firewall.py:333-334 | appends the six foundation rules and leaves an empty ipset |
| FirewallProps.AllowPlan | images/base/init-firewall.py:335-336 | filling the ipset only adds, first the services' entries, then the domains' |
| FirewallProps.AllowRun | images/base/init-firewall.py:335-336 | fail-closed: the ipset grows by a prefix of the plan, all of it on success, and nothing else changes |
| FirewallProps.AllowSuccess | images/base/init-firewall.py:335-336 | success adds every service entry and then every domain entry |
| FirewallProps.LockRun | images/base/init-firewall.py:337-339 | success implies the blocked site is unreachable, three DROP policies, and the host and final rules appended |
| FirewallProps.FrontSuccess | images/base/init-firewall.py:330-334 | after the first phases, only the foundation rules, an empty ipset, the original policies |
| FirewallProps.BackSuccess | images/base/init-firewall.py:335-339 | the later phases on success: DROP policies, host and final rules, the planned ipset |
| FirewallProps.PipelineSuccess | images/base/init-firewall.py:330-341 | a successful run ends with exactly the foundation, host and final rules, DROP policies and the planned ipset |
| FirewallProps.MainSuccess | images/base/init-firewall.py:324-347 | `main` succeeds only on a valid policy and an unreachable blocked site, and ends in that state |
| FirewallProps.LoadFailureUntouched | images/base/init-firewall.py:328-329 | a policy that fails to load raises before any firewall change |
| FirewallInit.Firewall.constructor | images/base/init-firewall.py:324-326 | the host and initial kernel state |
| FirewallInit.Firewall.Execute | images/base/init-firewall.py:33-43 | runs a command: succeeds iff the host accepts it, and then applies its effect |
| FirewallInit.Firewall.RunCmd | images/base/init-firewall.py:33-38 | `run_cmd`, one checked step |
| FirewallInit.Firewall.RunCmdUnchecked | images/base/init-firewall.py:41-43 | `run_cmd_unchecked`, one unchecked step that never raises |
| FirewallInit.Firewall.RunChecked | images/base/init-firewall.py:137-146 | a loop of checked commands is `Exec` of those steps |
| FirewallInit.Firewall.AddAll | images/base/init-firewall.py:225-227 | the loop of `add_to_ipset` calls is `Exec` of the adds |
| FirewallInit.Firewall.SaveDockerDnsRules | images/base/init-firewall.py:91-97 | returns exactly the filtered Docker DNS rules, unchecked |
| FirewallInit.Firewall.FlushRules | images/base/init-firewall.py:100-111 | `flush_rules` as its steps |
| FirewallInit.Firewall.RestoreDockerDns | images/base/init-firewall.py:114-131 | `restore_docker_dns` as its steps, which never raise |
| FirewallInit.Firewall.RestoreLines | images/base/init-firewall.py:127-131 | the line loop runs one unchecked command per non-empty line |
| FirewallInit.Firewall.SetupFoundationRules | images/base/init-firewall.py:134-146 | the six appends in order |
| FirewallInit.Firewall.CreateIpset | images/base/init-firewall.py:149-151 | the checked `ipset create` |
| FirewallInit.Firewall.ProcessServices | images/base/init-firewall.py:217-229 | the services loop is `Exec` of `ServiceSteps` |
| FirewallInit.Firewall.ProcessDomains | images/base/init-firewall.py:232-240 | the domains loop is `Exec` of `DomainSteps` |
| FirewallInit.Firewall.SetupHostNetwork | images/base/init-firewall.py:243-267 | `setup_host_network` as its steps |
| FirewallInit.Firewall.ApplyFirewallRules | images/base/init-firewall.py:270-285 | `apply_firewall_rules` as its steps |
| FirewallInit.Firewall.VerifyFirewall | images/base/init-firewall.py:290-321 | the probes change nothing and raise as `VerifySteps` says |
| FirewallInit.Firewall.Reset | images/base/init-firewall.py:330-332 | save, flush and restore in sequence, stopping at the first raise |
| FirewallInit.Firewall.Setup | images/base/init-firewall.py:333-334 | foundation rules, then the ipset |
| FirewallInit.Firewall.Allow | images/base/init-firewall.py:335-336 | services, then domains, stopping at the first raise |
| FirewallInit.Firewall.Lock | images/base/init-firewall.py:337-339 | host network, final rules, verification |
| FirewallInit.Firewall.InitFirewall | images/base/init-firewall.py:324-347 | `main`: the state and exit status of running every phase; a bad policy leaves the state untouched with status 1 |
| FirewallInit.ConcatSplit | images/base/init-firewall.py:221-240 | the steps of a loop over services or domains split at any index into the steps of the two parts |
| EnforcerSpec.Get | images/proxy/addons/enforcer.py:87 | `dict.get`: null when the key is absent; a non-null result is the value of an entry with that key |
| EnforcerSpec.Items | images/proxy/addons/enforcer.py:87 | `x or []` then iteration: a falsy value gives nothing, a list its items, a string its characters, and a true boolean or nonzero int raises |
| EnforcerSpec.MatchesAtLabel | images/proxy/addons/enforcer.py:116 | a wildcard suffix matches iff the host is the suffix or the suffix follows a dot |
| EnforcerSpec.LabelBoundaryExamples | images/proxy/addons/enforcer.py:116 | `sub.example.com` and `example.com` match `example.com`; `evilexample.com` does not |
| EnforcerSpec.LogModeAllowsAll | images/proxy/addons/enforcer.py:111-112 | log mode allows every host whatever the table holds |
| EnforcerSpec.AddDomainPermits | images/proxy/addons/enforcer.py:103-118 | after adding a pattern, a host is permitted iff it was permitted before or the pattern admits it |
| EnforcerSpec.BuildPermits | images/proxy/addons/enforcer.py:103-118 | the table built from patterns permits a host iff one of the patterns admits it |
| EnforcerSpec.BuildMonotone | images/proxy/addons/enforcer.py:103-118 | adding patterns never turns an allowed host into a denied one |
| EnforcerSpec.BuildParts | images/proxy/addons/enforcer.py:103-108 | the exact set is the non-`*.` patterns; the wildcard list is the `*.` patterns' suffixes, in order |
| EnforcerSpec.Announce | images/proxy/addons/enforcer.py:90-104 | one `Adding` message per pattern, in order |
| EnforcerSpec.LoadBoot | images/proxy/addons/enforcer.py:79-101 | a missing file logs the notice and stops; a completed load always ends with the summary of the table |
| EnforcerSpec.Startup | images/proxy/addons/enforcer.py:65-77 | log mode only logs its notice; any mode other than `log` or `enforce` stops with nothing added |
| EnforcerSpec.ServicesHaltStays | images/proxy/addons/enforcer.py:87-93 | once the services loop raised, later entries change nothing |
| EnforcerSpec.DomainsHaltStays | images/proxy/addons/enforcer.py:95-96 | once the domains loop raised, later entries change nothing |
| EnforcerSpec.ServicesBootSpec | images/proxy/addons/enforcer.py:87-93 | the services loop raises iff an entry is unhashable; otherwise it adds every known service's patterns, in order |
| EnforcerSpec.DomainsBootSpec | images/proxy/addons/enforcer.py:95-96 | the domains loop raises iff an entry is not a string; otherwise it adds every domain, in order |
| EnforcerSpec.LoadAdded | images/proxy/addons/enforcer.py:79-101 | a completed load adds the services' patterns, then the domains |
| EnforcerSpec.AdmittedByConcat | images/proxy/addons/enforcer.py:87-96 | the patterns of two lists admit a host iff one list's do |
| EnforcerSpec.ExpandAdmitted | images/proxy/addons/enforcer.py:87-93 | the services' patterns admit a host iff some listed service's own patterns do |
| EnforcerSpec.NamesAdmitted | images/proxy/addons/enforcer.py:95-96 | the domains admit a host iff some listed string domain does |
| EnforcerSpec.AddedPermits | images/proxy/addons/enforcer.py:87-118 | the table of services' and domains' patterns permits a host iff either part admits it |
| EnforcerSpec.LoadedPermits | images/proxy/addons/enforcer.py:79-118 | after a completed load, a host is permitted iff a listed service's or domain's pattern admits it |
| EnforcerSpec.GithubPatternsAdmitApi | images/proxy/addons/enforcer.py:23-28 | the `github` service admits `api.github.com` through `*.github.com` |
| EnforcerSpec.GithubServiceAdmitsApi | images/proxy/addons/enforcer.py:87-93 | a loaded policy listing `github` permits `api.github.com` |
| EnforcerSpec.Infos | images/proxy/addons/enforcer.py:123-129 | one info line per message, in order |
| EnforcerSpec.ConnectBlocksIffDenied | images/proxy/addons/enforcer.py:135-149 | CONNECT gets a 403 iff the host is not allowed; an allowed flow is untouched and nothing is logged |
| EnforcerSpec.ConnectEnforcesPolicy | images/proxy/addons/enforcer.py:135-149 | in enforce mode after a load, CONNECT is blocked iff no listed service or domain admits the host |
| EnforcerSpec.RequestChecksOnlyHttp | images/proxy/addons/enforcer.py:151-166 | a non-`http` request is never touched; an `http` one is blocked exactly as CONNECT would be |
| EnforcerSpec.QuietHooksWriteNothing | images/proxy/addons/enforcer.py:131-133 | at the quiet level no hook writes anything |
| Enforcer.PolicyEnforcer.constructor | images/proxy/addons/enforcer.py:65-77 | the table, output and stop of `Startup` |
| Enforcer.PolicyEnforcer.LogInfo | images/proxy/addons/enforcer.py:123-129 | always appends the info line |
| Enforcer.PolicyEnforcer.Log | images/proxy/addons/enforcer.py:131-133 | appends the entry unless the level is quiet |
| Enforcer.PolicyEnforcer.AddDomain | images/proxy/addons/enforcer.py:103-108 | the table becomes `AddDomain` of the old table, after the `Adding` line |
| Enforcer.PolicyEnforcer.LoadPolicy | images/proxy/addons/enforcer.py:79-101 | the table, output and stop of `LoadBoot` over `SERVICE_DOMAINS` |
| Enforcer.PolicyEnforcer.LoadDocument | images/proxy/addons/enforcer.py:85-101 | the same for a parsed document and any catalog |
| Enforcer.PolicyEnforcer.LoadRest | images/proxy/addons/enforcer.py:95-101 | the domains loop, then the summary line |
| Enforcer.PolicyEnforcer.LoadServices | images/proxy/addons/enforcer.py:87-93 | the services loop is `ServicesBoot` |
| Enforcer.PolicyEnforcer.LoadService | images/proxy/addons/enforcer.py:88-93 | one service: raise, add its patterns, or warn |
| Enforcer.PolicyEnforcer.LoadDomains | images/proxy/addons/enforcer.py:95-96 | the domains loop is `DomainsBoot` |
| Enforcer.PolicyEnforcer.LoadDomain | images/proxy/addons/enforcer.py:95-108 | one domain: the message, then a raise for a non-string |
| Enforcer.PolicyEnforcer.AddPatterns | images/proxy/addons/enforcer.py:90-91 | adds every pattern, in order, announcing each |
| Enforcer.PolicyEnforcer.IsAllowed | images/proxy/addons/enforcer.py:110-118 | the early-return scan gives exactly `Allowed` of the table |
| Enforcer.PolicyEnforcer.HttpConnect | images/proxy/addons/enforcer.py:135-149 | the flow and log of `Connect` |
| Enforcer.PolicyEnforcer.HandleRequest | images/proxy/addons/enforcer.py:151-166 | the flow and log of `OnRequest` |
| Enforcer.PolicyEnforcer.HandleResponse | images/proxy/addons/enforcer.py:168-177 | the log of `OnResponse` |
| Enforcer.PolicyEnforcer.HandleError | images/proxy/addons/enforcer.py:179-186 | the log of `OnError`, with `unknown` for what is missing |

## Left out

- Process execution, the kernel and curl are oracles of the `Host` value.
  - iptables is an ordered rule list per table, a chain set and a policy map. Matching packets against rules is not modelled.
  - The oracles do not depend on the kernel state.
- Network I/O is an oracle: the meta download and its JSON decoding together give a document or failure, and `getaddrinfo` gives a list or failure.
- JSON and YAML parsing is not modelled: the model starts from parsed values.
  - JSON numbers are integers; YAML floats and dates are not modelled.
  - A YAML mapping key is any parsed value, compared by equality.
- Timestamps, `print` formatting, `os.environ`/`os.getenv`, and the policy path are not modelled.
  - `sys.exit` and an exception escaping `__init__` become the `halted` flag.
- The mitmproxy runtime, TLS and hook concurrency are not modelled.
  - Hooks are modelled only on flows that have a request; `response` also needs a response. That is how mitmproxy calls them.
- Python's set iteration order is not modelled.
  - `Dedup` keeps each address at its first place.
  - `collapse_addresses` is fed the CIDR set in ascending order.
  - `FirstNotIPv4` reports the first invalid address in that order, and `resolve_domain` returns the list in that order.
  - CPython's order may differ in both places. What is proved (same elements, no duplicates, same covered addresses) holds for any order.
- Collapse.Collapse: CPython first turns `/32` networks into addresses and summarises runs of consecutive addresses as blocks. The model skips that pre-pass and merges them like every other network. The covered addresses are the same; that the resulting list is the same too is not proved.
- The meta document is one fixed value. A policy that lists `github` twice fetches the same document twice.
- `\d` in the host-IP pattern is read as ASCII digits. Python also accepts other Unicode digits.
- A domain that is not a string makes `process_domains` raise.
  - The model uses `UnexpectedError` for every such domain.
  - In Python, `None` raises `gaierror` and is reported as a resolution failure. Either way `main` exits with status 1 before adding anything for it.
- `SERVICE_DOMAINS` is passed to the loading functions as the `catalog` parameter, and `LoadPolicy` applies them to the constant.
- For a non-string domain, `_add_domain` writes its `Adding` line before `startswith` raises. The model keeps that order, and logs the value as given.
- Enforcer.PolicyEnforcer.LoadPolicy: requires the empty allowlist that `__init__` sets up just before. The source never calls `_load_policy` on a filled table.
- Resolve.GithubCidrs: the meta document is modelled as a map from keys to lists of strings.
  - `fetch_github_ips` accepts any decoded JSON value. A document that is not an object raises either the missing-key error or a `TypeError`. An entry that is a number, a boolean or `null` raises `TypeError` at the `":"` test. A list or object entry passes that test and then fails `validate_cidr`. `main` turns either into exit status 1.
  - A string value under a key is iterated character by character, and an object value by its keys.
  - None of these shapes can be expressed, so their failure and iteration paths are not modelled.
