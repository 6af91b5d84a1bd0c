/**
 * The firewall state the initialiser (`images/base/init-firewall.py`)
 * changes, the commands that change it, and its phases written as lists of
 * steps. A step runs a command through `run_cmd` (checked: a non-zero exit
 * raises), through `run_cmd_unchecked` (the exit status is ignored), or
 * raises an error on its own. Whether a command succeeds is an oracle of
 * the host; the state is an abstract view of the kernel's tables.
 */
module FirewallSpec {
  import opened Results
  import opened Text
  import opened AddrText
  import opened FirewallText
  import opened Resolve

  /** What the initialiser asks of the world: whether a command line exits
      with status 0, the text `iptables-save -t nat` prints, the text
      `ip route` prints, GitHub's meta document (`None` when the download or
      the JSON decoding fails), name resolution (`None` when it raises
      `gaierror`), and whether curl reaches a probe. */
  datatype Host = Host(
    accepts: seq<string> -> bool,
    natDump: string,
    routes: string,
    meta: Option<Meta>,
    dns: string -> Option<seq<string>>,
    reachable: Probe -> bool)

  /** The kernel state the initialiser changes: the default policy of each
      built-in chain, the rules of each table in order, the user-defined
      chains, and the ipset `allowed-domains` with its entries in order of
      addition (`None` when it does not exist). */
  datatype Tables = Tables(
    policies: map<string, string>,
    filterRules: seq<Rule>,
    natRules: seq<Rule>,
    mangleRules: seq<Rule>,
    chains: set<(Table, string)>,
    ipset: Option<seq<string>>)

  function RulesOf(t: Tables, table: Table): seq<Rule> {
    match table
    case Filter => t.filterRules
    case Nat => t.natRules
    case Mangle => t.mangleRules
  }

  function WithRules(t: Tables, table: Table, rules: seq<Rule>): Tables {
    match table
    case Filter => t.(filterRules := rules)
    case Nat => t.(natRules := rules)
    case Mangle => t.(mangleRules := rules)
  }

  /** The effect of a command that exits with status 0. */
  function Apply(t: Tables, c: Cmd): Tables {
    match c
    case FlushChains(table) => WithRules(t, table, [])
    case DeleteChains(table) => t.(chains := set ch | ch in t.chains && ch.0 != table)
    case NewChain(table, chain) => t.(chains := t.chains + {(table, chain)})
    case AppendRule(table, rule) => WithRules(t, table, RulesOf(t, table) + [rule])
    case SetPolicy(chain, target) => t.(policies := t.policies[chain := target])
    case NatWords(words) =>
      if |words| >= 2 && words[0] == "-A" then t.(natRules := t.natRules + [Rule(words[1], words[2..])]) else t
    case IpsetCreate => t.(ipset := Some([]))
    case IpsetDestroy => t.(ipset := None)
    case IpsetAdd(entry) => if t.ipset.Some? then t.(ipset := Some(t.ipset.value + [entry])) else t
    case Query(_) => t
  }

  /** One step of the initialiser. */
  datatype Step =
    | Checked(cmd: Cmd)         // run_cmd: a failing command raises
    | Unchecked(cmd: Cmd)       // run_cmd_unchecked: the exit status is ignored
    | Abort(error: FirewallError)  // a check of the initialiser's own raises

  /** The state after a run, and whether it raised. */
  datatype RunResult = RunResult(tables: Tables, outcome: Outcome<FirewallError>)

  /** Running steps in order; the first error ends the run and leaves the
      state as it was when the error was raised. */
  function Exec(host: Host, t: Tables, steps: seq<Step>): RunResult
    decreases |steps|
  {
    if steps == [] then RunResult(t, Pass)
    else
      match steps[0]
      case Checked(c) =>
        if host.accepts(Argv(c)) then Exec(host, Apply(t, c), steps[1..])
        else RunResult(t, Fail(CommandFailed(Argv(c))))
      case Unchecked(c) =>
        Exec(host, if host.accepts(Argv(c)) then Apply(t, c) else t, steps[1..])
      case Abort(e) => RunResult(t, Fail(e))
  }

  /** `main`'s exit status. */
  function ExitCode(o: Outcome<FirewallError>): int {
    if o.Pass? then 0 else 1
  }

  // ---------------------------------------------------------------------
  // The phases of `main`
  // ---------------------------------------------------------------------

  const SaveArgv: seq<string> := ["iptables-save", "-t", "nat"]
  const RouteArgv: seq<string> := ["ip", "route"]

  /** `save_docker_dns_rules`: one unchecked command that changes nothing. */
  function SaveSteps(): seq<Step> {
    [Unchecked(Query(SaveArgv))]
  }

  /** `flush_rules`. */
  function FlushSteps(): seq<Step> {
    [Checked(FlushChains(Filter)), Checked(DeleteChains(Filter)),
     Checked(FlushChains(Nat)), Checked(DeleteChains(Nat)),
     Checked(FlushChains(Mangle)), Checked(DeleteChains(Mangle)),
     Unchecked(IpsetDestroy)]
  }

  /** Each command run unchecked, in order. */
  function Unchecks(cmds: seq<Cmd>): (steps: seq<Step>)
    ensures |steps| == |cmds|
    ensures forall i :: 0 <= i < |cmds| ==> steps[i] == Unchecked(cmds[i])
  {
    seq(|cmds|, i requires 0 <= i < |cmds| => Unchecked(cmds[i]))
  }

  /** `restore_docker_dns`: every command unchecked. */
  function RestoreSteps(rules: string): seq<Step> {
    Unchecks(RestoreCommands(rules))
  }

  /** Checked appends of rules to the filter table, in order. */
  function AppendSteps(rules: seq<Rule>): (steps: seq<Step>)
    ensures |steps| == |rules|
    ensures forall i :: 0 <= i < |rules| ==> steps[i] == Checked(AppendRule(Filter, rules[i]))
  {
    seq(|rules|, i requires 0 <= i < |rules| => Checked(AppendRule(Filter, rules[i])))
  }

  /** Checked `add_to_ipset` of each entry, in order. */
  function AddSteps(entries: seq<string>): (steps: seq<Step>)
    ensures |steps| == |entries|
    ensures forall i :: 0 <= i < |entries| ==> steps[i] == Checked(IpsetAdd(entries[i]))
  {
    seq(|entries|, i requires 0 <= i < |entries| => Checked(IpsetAdd(entries[i])))
  }

  const DnsOut := Rule("OUTPUT", ["-p", "udp", "--dport", "53", "-j", "ACCEPT"])
  const DnsIn := Rule("INPUT", ["-p", "udp", "--sport", "53", "-j", "ACCEPT"])
  const SshOut := Rule("OUTPUT", ["-p", "tcp", "--dport", "22", "-j", "ACCEPT"])
  const SshIn := Rule("INPUT", ["-p", "tcp", "--sport", "22", "-m", "state", "--state", "ESTABLISHED", "-j", "ACCEPT"])
  const LoIn := Rule("INPUT", ["-i", "lo", "-j", "ACCEPT"])
  const LoOut := Rule("OUTPUT", ["-o", "lo", "-j", "ACCEPT"])

  /** The rules of `setup_foundation_rules`, in order. */
  const FoundationRules: seq<Rule> := [DnsOut, DnsIn, SshOut, SshIn, LoIn, LoOut]

  /** The two rules of `setup_host_network` for the host's network. */
  function HostRules(net: string): seq<Rule> {
    [Rule("INPUT", ["-s", net, "-j", "ACCEPT"]), Rule("OUTPUT", ["-d", net, "-j", "ACCEPT"])]
  }

  const EstablishedIn := Rule("INPUT", ["-m", "state", "--state", "ESTABLISHED,RELATED", "-j", "ACCEPT"])
  const EstablishedOut := Rule("OUTPUT", ["-m", "state", "--state", "ESTABLISHED,RELATED", "-j", "ACCEPT"])
  const MatchSet := Rule("OUTPUT", ["-m", "set", "--match-set", IpsetName, "dst", "-j", "ACCEPT"])
  const RejectOut := Rule("OUTPUT", ["-j", "REJECT", "--reject-with", "icmp-admin-prohibited"])

  /** The rules `apply_firewall_rules` appends after setting the policies. */
  const FinalRules: seq<Rule> := [EstablishedIn, EstablishedOut, MatchSet, RejectOut]

  /** `apply_firewall_rules`. */
  function ApplySteps(): seq<Step> {
    [Checked(SetPolicy("INPUT", "DROP")), Checked(SetPolicy("FORWARD", "DROP")),
     Checked(SetPolicy("OUTPUT", "DROP"))] + AppendSteps(FinalRules)
  }

  /** One entry of `process_services`: `github` adds the ranges
      `fetch_github_ips` returns, or raises its error; any other service
      only prints a warning. */
  function ServiceStep(meta: Option<Meta>, service: Json): seq<Step> {
    if service == JString("github") then
      match GithubCidrs(meta)
      case Err(e) => [Abort(e)]
      case Ok(cidrs) => AddSteps(cidrs)
    else []
  }

  /** The steps of a loop over a list: each element's steps, in order. */
  function Concat<T>(f: T -> seq<Step>, xs: seq<T>): seq<Step> {
    if xs == [] then []
    else Concat(f, xs[..|xs| - 1]) + f(xs[|xs| - 1])
  }

  function ServiceStepOf(meta: Option<Meta>): Json -> seq<Step> {
    service => ServiceStep(meta, service)
  }

  /** `process_services`. */
  function ServiceSteps(meta: Option<Meta>, services: seq<Json>): seq<Step> {
    Concat(ServiceStepOf(meta), services)
  }

  /** One entry of `process_domains`: the addresses `resolve_domain` returns,
      or its error; a domain that is not a string makes name resolution
      raise a `TypeError`, which `main` reports as unexpected. */
  function DomainStep(dns: string -> Option<seq<string>>, domain: Json): seq<Step> {
    if domain.JString? then
      match ResolveDomain(dns, domain.s)
      case Err(e) => [Abort(e)]
      case Ok(ips) => AddSteps(ips)
    else [Abort(UnexpectedError)]
  }

  function DomainStepOf(dns: string -> Option<seq<string>>): Json -> seq<Step> {
    domain => DomainStep(dns, domain)
  }

  /** `process_domains`. */
  function DomainSteps(dns: string -> Option<seq<string>>, domains: seq<Json>): seq<Step> {
    Concat(DomainStepOf(dns), domains)
  }

  /** `setup_host_network`: the checked `ip route`, then the two rules for
      the `/24` of the default gateway, or the error when there is none or
      its text is not four runs of digits. */
  function HostNetworkSteps(host: Host): seq<Step> {
    [Checked(Query(RouteArgv))] +
    match DefaultGateway(Split(host.routes, '\n'))
    case None => [Abort(NoHostIP)]
    case Some(hostIp) =>
      match HostNetwork(hostIp)
      case None => [Abort(InvalidHostIP(hostIp))]
      case Some(net) => AppendSteps(HostRules(net))
  }

  /** `verify_firewall`: reaching the blocked site raises; failing to reach
      the chosen allowed endpoint raises; no endpoint skips that probe. */
  function VerifySteps(host: Host, p: Policy): seq<Step> {
    (if host.reachable(BlockedSite) then [Abort(BlockedSiteReachable)] else []) +
    match VerifyEndpoint(p)
    case None => []
    case Some(probe) => if host.reachable(probe) then [] else [Abort(AllowedUnreachable(probe))]
  }

  /** The Docker DNS rules `save_docker_dns_rules` returns. */
  function SavedRules(host: Host): string {
    DockerDnsRules(host.accepts(SaveArgv), host.natDump)
  }

  /** Clearing the slate: save the Docker DNS rules, flush, restore them. */
  function ResetSteps(host: Host): seq<Step> {
    SaveSteps() + FlushSteps() + RestoreSteps(SavedRules(host))
  }

  /** The foundation rules, then the empty ipset. */
  function SetupSteps(): seq<Step> {
    AppendSteps(FoundationRules) + [Checked(IpsetCreate)]
  }

  /** Filling the ipset: the services, then the domains. */
  function AllowSteps(host: Host, p: Policy): seq<Step> {
    ServiceSteps(host.meta, p.services) + DomainSteps(host.dns, p.domains)
  }

  /** Locking down: the host network, the final rules, the probes. */
  function LockSteps(host: Host, p: Policy): seq<Step> {
    HostNetworkSteps(host) + ApplySteps() + VerifySteps(host, p)
  }

  /** Everything `main` runs once the policy is loaded, phase by phase. */
  function PipelineSteps(host: Host, p: Policy): seq<Step> {
    ResetSteps(host) + SetupSteps() + AllowSteps(host, p) + LockSteps(host, p)
  }

  /** `main`: load the policy, then run every phase. */
  function MainSteps(host: Host, file: PolicyFile): seq<Step> {
    match LoadPolicy(file)
    case Err(e) => [Abort(e)]
    case Ok(p) => PipelineSteps(host, p)
  }
}
