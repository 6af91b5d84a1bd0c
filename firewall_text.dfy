/**
 * The pure decisions of the firewall initialiser (`images/base/init-firewall.py`):
 * checking the shape of the policy document, picking the Docker DNS rules out
 * of a NAT table dump and cutting them back into commands, finding the host
 * network from the output of `ip route`, and choosing the endpoint that proves
 * the firewall lets allowed traffic through.
 */
module FirewallText {
  import opened Results
  import opened Text
  import opened Ipaddress
  import opened AddrText

  /** A parsed JSON value. */
  datatype Json =
    | JNull
    | JBool(b: bool)
    | JNumber(n: int)
    | JString(s: string)
    | JArray(items: seq<Json>)
    | JObject(fields: map<string, Json>)

  /** What reading the policy file gives: no file, text that is not JSON, or
      a parsed document. */
  datatype PolicyFile = Missing | NotJson | Parsed(doc: Json)

  /** The two lists of a policy that passed `load_policy`; their elements
      are not checked. */
  datatype Policy = Policy(services: seq<Json>, domains: seq<Json>)

  /** A URL that `verify_firewall` probes with curl. */
  datatype Probe =
    | BlockedSite        // https://example.com
    | GithubZen          // https://api.github.com/zen
    | DomainRoot(domain: Json)  // https://<first domain>

  /** The reasons the initialiser stops; each one ends `main` with status 1. */
  datatype FirewallError =
    | PolicyNotFound
    | PolicyNotJson
    | PolicyNotObject
    | ServicesNotArray
    | DomainsNotArray
    | CommandFailed(args: seq<string>)
    | MetaFetchFailed
    | MetaMissingKey(key: string)
    | InvalidGithubCidr(cidr: string)
    | NoIPv4Addresses(domain: string)
    | InvalidDnsAddress(domain: string, ip: string)
    | ResolveFailed(domain: string)
    | NoHostIP
    | InvalidHostIP(token: string)
    | BlockedSiteReachable
    | AllowedUnreachable(probe: Probe)
    | UnexpectedError

  // ---------------------------------------------------------------------
  // load_policy
  // ---------------------------------------------------------------------

  /** `policy.get(key, [])` when the value must be a list. */
  function ListField(fields: map<string, Json>, key: string): Option<seq<Json>> {
    if key !in fields then Some([])
    else if fields[key].JArray? then Some(fields[key].items)
    else None
  }

  /** `load_policy`: the file must exist and hold a JSON object whose
      `services` and `domains`, when present, are lists; the checks run in
      that order and the first that fails names the error. */
  function LoadPolicy(file: PolicyFile): (r: Result<Policy, FirewallError>)
    ensures file.Missing? ==> r == Err(PolicyNotFound)
    ensures file.NotJson? ==> r == Err(PolicyNotJson)
    ensures file.Parsed? && !file.doc.JObject? ==> r == Err(PolicyNotObject)
    ensures r.Ok? <==> file.Parsed? && file.doc.JObject?
                       && ("services" in file.doc.fields ==> file.doc.fields["services"].JArray?)
                       && ("domains" in file.doc.fields ==> file.doc.fields["domains"].JArray?)
    ensures r.Err? && r.error == DomainsNotArray ==> ListField(file.doc.fields, "services").Some?
  {
    match file
    case Missing => Err(PolicyNotFound)
    case NotJson => Err(PolicyNotJson)
    case Parsed(doc) =>
      if !doc.JObject? then Err(PolicyNotObject)
      else
        var services := ListField(doc.fields, "services");
        if services.None? then Err(ServicesNotArray)
        else
          var domains := ListField(doc.fields, "domains");
          if domains.None? then Err(DomainsNotArray)
          else Ok(Policy(services.value, domains.value))
  }

  /** The document a policy is written as. */
  function PolicyDocument(p: Policy): Json {
    JObject(map["services" := JArray(p.services), "domains" := JArray(p.domains)])
  }

  /** Every policy, written as a document, loads back as itself; absent keys
      load as empty lists. */
  lemma LoadPolicyRoundTrip(p: Policy, extra: map<string, Json>)
    ensures LoadPolicy(Parsed(PolicyDocument(p))) == Ok(p)
    ensures "services" !in extra && "domains" !in extra ==>
              LoadPolicy(Parsed(JObject(extra))) == Ok(Policy([], []))
  {
  }

  // ---------------------------------------------------------------------
  // save_docker_dns_rules and restore_docker_dns
  // ---------------------------------------------------------------------

  const DockerDns := "127.0.0.11"

  /** The lines that mention Docker's embedded DNS server, in order. */
  function DnsLines(lines: seq<string>): (kept: seq<string>)
    ensures forall i :: 0 <= i < |kept| ==> HasInfix(kept[i], DockerDns)
    ensures forall l :: l in kept <==> l in lines && HasInfix(l, DockerDns)
    ensures |kept| <= |lines|
    ensures |lines| == 1 ==> kept == (if HasInfix(lines[0], DockerDns) then lines else [])
  {
    if lines == [] then []
    else
      var rest := DnsLines(lines[1..]);
      assert forall l :: l in lines <==> l == lines[0] || l in lines[1..];
      if HasInfix(lines[0], DockerDns) then [lines[0]] + rest else rest
  }

  /** Filtering keeps the order of the lines, duplicates included: the kept
      lines of two consecutive runs are the kept lines of each, in turn. */
  lemma {:induction false} DnsLinesAppend(a: seq<string>, b: seq<string>)
    ensures DnsLines(a + b) == DnsLines(a) + DnsLines(b)
    decreases |a|
  {
    if a == [] {
      assert a + b == b;
    } else {
      assert (a + b)[0] == a[0];
      assert (a + b)[1..] == a[1..] + b;
      DnsLinesAppend(a[1..], b);
    }
  }

  /** `save_docker_dns_rules`: the Docker DNS lines of the NAT dump joined by
      newlines, or "" when `iptables-save` failed or printed nothing. */
  function DockerDnsRules(dumpOk: bool, dump: string): string {
    if dumpOk && dump != [] then Join(DnsLines(Split(dump, '\n')), '\n') else []
  }

  /** The saved text cuts back into exactly the Docker DNS lines of the dump. */
  lemma DockerDnsRulesLines(dump: string)
    requires DnsLines(Split(dump, '\n')) != []
    ensures Split(DockerDnsRules(true, dump), '\n') == DnsLines(Split(dump, '\n'))
  {
    var lines := Split(dump, '\n');
    var kept := DnsLines(lines);
    forall i | 0 <= i < |kept|
      ensures '\n' !in kept[i]
    {
      assert kept[i] in lines;
    }
    SplitJoin(kept, '\n');
  }

  /** The table an `iptables` command addresses. */
  datatype Table = Filter | Nat | Mangle

  /** An `iptables` or `ipset` command of the initialiser. */
  datatype Cmd =
    | FlushChains(table: Table)                       // iptables [-t T] -F
    | DeleteChains(table: Table)                      // iptables [-t T] -X
    | NewChain(table: Table, chain: string)           // iptables -t T -N chain
    | AppendRule(table: Table, rule: Rule)            // iptables [-t T] -A chain spec...
    | SetPolicy(chain: string, target: string)        // iptables -P chain target
    | NatWords(words: seq<string>)                    // iptables -t nat <words of a saved rule>
    | IpsetCreate                                     // ipset create allowed-domains hash:net
    | IpsetDestroy                                    // ipset destroy allowed-domains
    | IpsetAdd(entry: string)                         // ipset add allowed-domains entry
    | Query(args: seq<string>)                        // a command that only prints

  /** A rule of a chain: the chain and the match/target words after it. */
  datatype Rule = Rule(chain: string, spec: seq<string>)

  const IpsetName := "allowed-domains"

  function TableArgs(t: Table): seq<string> {
    match t
    case Filter => []
    case Nat => ["-t", "nat"]
    case Mangle => ["-t", "mangle"]
  }

  /** The command line the source runs for a command. */
  function Argv(c: Cmd): seq<string> {
    match c
    case FlushChains(t) => ["iptables"] + TableArgs(t) + ["-F"]
    case DeleteChains(t) => ["iptables"] + TableArgs(t) + ["-X"]
    case NewChain(t, chain) => ["iptables"] + TableArgs(t) + ["-N", chain]
    case AppendRule(t, r) => ["iptables"] + TableArgs(t) + ["-A", r.chain] + r.spec
    case SetPolicy(chain, target) => ["iptables", "-P", chain, target]
    case NatWords(words) => ["iptables", "-t", "nat"] + words
    case IpsetCreate => ["ipset", "create", IpsetName, "hash:net"]
    case IpsetDestroy => ["ipset", "destroy", IpsetName]
    case IpsetAdd(entry) => ["ipset", "add", IpsetName, entry]
    case Query(args) => args
  }

  /** The commands of one saved rule line: `iptables -t nat` and the words of
      the line, for every non-empty line. */
  function RuleLineCommands(lines: seq<string>): (cmds: seq<Cmd>)
    ensures |cmds| <= |lines|
    ensures forall i :: 0 <= i < |cmds| ==> cmds[i].NatWords?
    ensures |lines| == 1 ==> cmds == (if lines[0] != [] then [NatWords(Words(lines[0]))] else [])
  {
    if lines == [] then []
    else (if lines[0] != [] then [NatWords(Words(lines[0]))] else []) + RuleLineCommands(lines[1..])
  }

  /** The commands of consecutive runs of lines are those of each run, in
      line order. */
  lemma {:induction false} RuleLineCommandsAppend(a: seq<string>, b: seq<string>)
    ensures RuleLineCommands(a + b) == RuleLineCommands(a) + RuleLineCommands(b)
    decreases |a|
  {
    if a == [] {
      assert a + b == b;
    } else {
      assert (a + b)[0] == a[0];
      assert (a + b)[1..] == a[1..] + b;
      RuleLineCommandsAppend(a[1..], b);
    }
  }

  /** Each non-empty line gives one command with exactly its words, and empty
      lines give none. */
  lemma {:induction false} RuleLineCommandsOfLines(lines: seq<string>)
    requires forall i :: 0 <= i < |lines| ==> lines[i] != []
    ensures |RuleLineCommands(lines)| == |lines|
    ensures forall i :: 0 <= i < |lines| ==> RuleLineCommands(lines)[i] == NatWords(Words(lines[i]))
    decreases |lines|
  {
    if lines != [] {
      RuleLineCommandsOfLines(lines[1..]);
      assert forall i :: 1 <= i < |lines| ==> lines[1..][i - 1] == lines[i];
    }
  }

  /** `restore_docker_dns`: nothing for empty text; otherwise create the two
      Docker chains, then one command per non-empty line of the stripped
      text, in line order. */
  function RestoreCommands(rules: string): (cmds: seq<Cmd>)
    ensures rules == [] <==> cmds == []
    ensures rules != [] ==>
              |cmds| >= 2
              && cmds[0] == NewChain(Nat, "DOCKER_OUTPUT") && cmds[1] == NewChain(Nat, "DOCKER_POSTROUTING")
              && cmds[2..] == RuleLineCommands(Split(Strip(rules), '\n'))
  {
    if rules == [] then []
    else [NewChain(Nat, "DOCKER_OUTPUT")]
         + ([NewChain(Nat, "DOCKER_POSTROUTING")] + RuleLineCommands(Split(Strip(rules), '\n')))
  }

  /** Saving and then restoring: the two Docker chains are created, then
      one `iptables -t nat` command per saved line, in the order of the
      dump, with exactly that line's words. */
  lemma SaveRestore(dump: string)
    requires DnsLines(Split(dump, '\n')) != []
    ensures var kept := DnsLines(Split(dump, '\n'));
            var cmds := RestoreCommands(DockerDnsRules(true, dump));
            |cmds| == |kept| + 2
            && cmds[0] == NewChain(Nat, "DOCKER_OUTPUT") && cmds[1] == NewChain(Nat, "DOCKER_POSTROUTING")
            && forall i :: 0 <= i < |kept| ==> cmds[i + 2] == NatWords(Words(kept[i]))
  {
    var lines := Split(dump, '\n');
    var kept := DnsLines(lines);
    assert dump != [];
    assert DockerDnsRules(true, dump) == Join(kept, '\n');
    forall i | 0 <= i < |kept|
      ensures '\n' !in kept[i] && HasNonSpace(kept[i])
    {
      assert kept[i] in lines;
      InfixNonSpace(kept[i]);
    }
    RestoreSavedLines(kept);
  }

  /** Restoring the join of non-blank lines: the two chains, then one
      command per line with that line's words. */
  lemma RestoreSavedLines(kept: seq<string>)
    requires kept != []
    requires forall i :: 0 <= i < |kept| ==> '\n' !in kept[i] && HasNonSpace(kept[i])
    ensures var cmds := RestoreCommands(Join(kept, '\n'));
            |cmds| == |kept| + 2
            && cmds[0] == NewChain(Nat, "DOCKER_OUTPUT") && cmds[1] == NewChain(Nat, "DOCKER_POSTROUTING")
            && forall i :: 0 <= i < |kept| ==> cmds[i + 2] == NatWords(Words(kept[i]))
  {
    var rules := Join(kept, '\n');
    assert rules != [] by {
      SplitJoin(kept, '\n');
    }
    var stripped := StripEnds(kept);
    assert Split(Strip(rules), '\n') == stripped by {
      NonSpaceRuns(kept[0]);
      NonSpaceRuns(kept[|kept| - 1]);
      StripJoin(kept, '\n');
      StripEndsLines(kept);
      SplitJoin(stripped, '\n');
    }
    var tail := RuleLineCommands(stripped);
    assert |tail| == |kept| && forall i :: 0 <= i < |kept| ==> tail[i] == NatWords(Words(kept[i])) by {
      StripEndsLines(kept);
      RuleLineCommandsOfLines(stripped);
    }
    RestoreShape(rules, tail);
  }

  lemma RestoreShape(rules: string, tail: seq<Cmd>)
    requires rules != [] && RuleLineCommands(Split(Strip(rules), '\n')) == tail
    ensures var cmds := RestoreCommands(rules);
            |cmds| == |tail| + 2
            && cmds[0] == NewChain(Nat, "DOCKER_OUTPUT") && cmds[1] == NewChain(Nat, "DOCKER_POSTROUTING")
            && forall i :: 0 <= i < |tail| ==> cmds[i + 2] == tail[i]
  {
  }

  predicate HasNonSpace(s: string) {
    exists i :: 0 <= i < |s| && !IsSpace(s[i])
  }

  /** A text with a non-whitespace character has shorter whitespace runs at
      either end. */
  lemma NonSpaceRuns(s: string)
    requires HasNonSpace(s)
    ensures SpaceRun(s) < |s| && TrailingSpace(s) < |s|
  {
    var i :| 0 <= i < |s| && !IsSpace(s[i]);
  }

  /** A line that mentions Docker's DNS server is not blank. */
  lemma {:induction false} InfixNonSpace(s: string)
    requires HasInfix(s, DockerDns)
    ensures HasNonSpace(s)
    decreases |s|
  {
    if StartsWith(s, DockerDns) {
      assert s[0] == s[..|DockerDns|][0] == '1';
    } else {
      InfixNonSpace(s[1..]);
      var i :| 0 <= i < |s[1..]| && !IsSpace(s[1..][i]);
      assert s[i + 1] == s[1..][i];
    }
  }

  /** The lines of a joined text after `strip()`: the first without its
      leading whitespace, the last without its trailing whitespace. */
  function StripEnds(lines: seq<string>): (r: seq<string>)
    requires lines != []
    ensures |r| == |lines|
  {
    var front := [TrimLeft(lines[0])] + lines[1..];
    front[..|front| - 1] + [TrimRight(front[|front| - 1])]
  }

  /** Every stripped line is non-empty, newline-free and has the words of
      the line it came from. */
  lemma StripEndsLines(lines: seq<string>)
    requires lines != []
    requires forall i :: 0 <= i < |lines| ==> '\n' !in lines[i] && HasNonSpace(lines[i])
    ensures forall i :: 0 <= i < |lines| ==>
              StripEnds(lines)[i] != [] && '\n' !in StripEnds(lines)[i]
              && Words(StripEnds(lines)[i]) == Words(lines[i])
  {
    var r := StripEnds(lines);
    var n := |lines|;
    forall i | 0 <= i < n
      ensures r[i] != [] && '\n' !in r[i] && Words(r[i]) == Words(lines[i])
    {
      var x := lines[i];
      if i == 0 && n == 1 {
        assert r[i] == TrimRight(TrimLeft(x));
        TrimLeftKeeps(x);
        TrimRightKeeps(TrimLeft(x));
      } else if i == 0 {
        assert r[i] == TrimLeft(x);
        TrimLeftKeeps(x);
      } else if i == n - 1 {
        assert r[i] == TrimRight(x);
        TrimRightKeeps(x);
      } else {
        assert r[i] == x;
        var j :| 0 <= j < |x| && !IsSpace(x[j]);
      }
    }
  }

  lemma TrimLeftKeeps(x: string)
    requires '\n' !in x && HasNonSpace(x)
    ensures TrimLeft(x) != [] && '\n' !in TrimLeft(x) && HasNonSpace(TrimLeft(x))
    ensures Words(TrimLeft(x)) == Words(x)
  {
    NonSpaceRuns(x);
    var k := SpaceRun(x);
    assert TrimLeft(x)[0] == x[k];
    assert forall j :: 0 <= j < |TrimLeft(x)| ==> TrimLeft(x)[j] == x[k + j];
    WordsTrimLeft(x);
  }

  lemma TrimRightKeeps(x: string)
    requires '\n' !in x && HasNonSpace(x)
    ensures TrimRight(x) != [] && '\n' !in TrimRight(x)
    ensures Words(TrimRight(x)) == Words(x)
  {
    NonSpaceRuns(x);
    assert forall j :: 0 <= j < |TrimRight(x)| ==> TrimRight(x)[j] == x[j];
    WordsTrimRight(x);
  }

  lemma StripJoin(lines: seq<string>, sep: char)
    requires lines != []
    requires SpaceRun(lines[0]) < |lines[0]|
    requires TrailingSpace(lines[|lines| - 1]) < |lines[|lines| - 1]|
    requires HasNonSpace(lines[0])
    ensures Strip(Join(lines, sep)) == Join(StripEnds(lines), sep)
  {
    var front := [TrimLeft(lines[0])] + lines[1..];
    JoinTrimLeft(lines, sep);
    var last := front[|front| - 1];
    assert TrailingSpace(last) < |last| by {
      if |lines| == 1 {
        var k := SpaceRun(lines[0]);
        assert last[0] == lines[0][k];
        NonSpaceRuns(last);
      } else {
        assert last == lines[|lines| - 1];
      }
    }
    JoinTrimRight(front, sep);
  }

  lemma JoinTrimLeft(parts: seq<string>, sep: char)
    requires parts != [] && SpaceRun(parts[0]) < |parts[0]|
    ensures TrimLeft(Join(parts, sep)) == Join([TrimLeft(parts[0])] + parts[1..], sep)
  {
    var p0 := parts[0];
    var k := SpaceRun(p0);
    if |parts| == 1 {
      assert [TrimLeft(p0)] + parts[1..] == [TrimLeft(p0)];
    } else {
      var x := [sep] + Join(parts[1..], sep);
      assert Join(parts, sep) == p0 + x;
      SpaceRunAppend(p0, x);
      assert (p0 + x)[k..] == p0[k..] + x;
      var q := [TrimLeft(p0)] + parts[1..];
      assert q[0] == TrimLeft(p0) && q[1..] == parts[1..];
    }
  }

  lemma JoinTrimRight(parts: seq<string>, sep: char)
    requires parts != [] && TrailingSpace(parts[|parts| - 1]) < |parts[|parts| - 1]|
    ensures TrimRight(Join(parts, sep))
            == Join(parts[..|parts| - 1] + [TrimRight(parts[|parts| - 1])], sep)
  {
    var n := |parts|;
    var last := parts[n - 1];
    var m := TrailingSpace(last);
    if n == 1 {
      assert parts[..0] + [TrimRight(last)] == [TrimRight(last)];
    } else {
      var init := parts[..n - 1];
      assert parts == init + [last];
      JoinAppend(init, last, sep);
      JoinAppend(init, TrimRight(last), sep);
      var y := Join(init, sep) + [sep];
      TrailingSpaceAppend(y, last);
      assert (y + last)[..|y + last| - m] == y + last[..|last| - m];
    }
  }

  // ---------------------------------------------------------------------
  // setup_host_network
  // ---------------------------------------------------------------------

  /** A line of `ip route` that names the default gateway: it starts with
      "default" and has at least three words. */
  predicate GatewayLine(line: string) {
    StartsWith(line, "default") && |Words(line)| >= 3
  }

  /** The third word of the first gateway line, if any. */
  function DefaultGateway(lines: seq<string>): (r: Option<string>)
    ensures r.Some? <==> exists i :: 0 <= i < |lines| && GatewayLine(lines[i])
  {
    if lines == [] then None
    else if GatewayLine(lines[0]) then Some(Words(lines[0])[2])
    else
      assert forall i :: 1 <= i < |lines| ==> lines[i] == lines[1..][i - 1];
      DefaultGateway(lines[1..])
  }

  /** The first gateway line decides: no earlier line is one. */
  lemma {:induction false} DefaultGatewayFirst(lines: seq<string>, i: nat)
    requires i < |lines| && GatewayLine(lines[i])
    requires forall j :: 0 <= j < i ==> !GatewayLine(lines[j])
    ensures DefaultGateway(lines) == Some(Words(lines[i])[2])
  {
    if i > 0 {
      DefaultGatewayFirst(lines[1..], i - 1);
    }
  }

  /** The scan of `setup_host_network`: walk the lines of the `ip route`
      output and stop at the first default route with three words. */
  method FindHostIp(routes: string) returns (hostIp: Option<string>)
    ensures hostIp == DefaultGateway(Split(routes, '\n'))
  {
    var lines := Split(routes, '\n');
    hostIp := None;
    var i := 0;
    while i < |lines|
      invariant 0 <= i <= |lines|
      invariant forall j :: 0 <= j < i ==> !GatewayLine(lines[j])
    {
      var line := lines[i];
      if StartsWith(line, "default") {
        var parts := Words(line);
        if |parts| >= 3 {
          hostIp := Some(parts[2]);
          DefaultGatewayFirst(lines, i);
          return;
        }
      }
      i := i + 1;
    }
  }

  /** The `/24` network `setup_host_network` derives from the gateway: the
      text must be four dot-separated runs of ASCII digits (the regular
      expression `^(\d+\.\d+\.\d+)\.\d+$`), and the first three are kept. */
  function HostNetwork(hostIp: string): Option<string> {
    var parts := Split(hostIp, '.');
    if |parts| == 4 && (forall i :: 0 <= i < 4 ==> parts[i] != [] && AllDigits(parts[i])) then
      Some(Join(parts[..3], '.') + ".0/24")
    else
      None
  }

  /** For the text of an address, the derived network is the `/24` that
      holds it, written as `str()` writes networks. */
  lemma HostNetworkOfAddress(a: Addr)
    ensures HostNetwork(FormatAddr(a)) == Some(FormatNetwork(Masked(Network(a, 24))))
  {
    var o := Octets(a);
    OctetsRoundTrip(a);
    var parts := [DecimalString(o[0]), DecimalString(o[1]), DecimalString(o[2]), DecimalString(o[3])];
    HostNetworkOfParts(parts);
    MaskedSlash24(a);
    FormatClearedAddr(o[0], o[1], o[2]);
    var low := FromOctets(o[0], o[1], o[2], 0);
    FormatSlash24(low);
    var three := Join(parts[..3], '.');
    assert parts[..3] == [DecimalString(o[0]), DecimalString(o[1]), DecimalString(o[2])];
    assert FormatAddr(a) == Join(parts, '.');
    assert FormatNetwork(Masked(Network(a, 24))) == (three + ".0") + "/24";
    assert (three + ".0") + "/24" == three + ".0/24";
  }

  /** Four runs of digits joined by dots give the network of the first three. */
  lemma HostNetworkOfParts(parts: seq<string>)
    requires |parts| == 4 && forall i :: 0 <= i < 4 ==> parts[i] != [] && AllDigits(parts[i])
    ensures HostNetwork(Join(parts, '.')) == Some(Join(parts[..3], '.') + ".0/24")
  {
    forall i | 0 <= i < 4
      ensures '.' !in parts[i]
    {
      DigitsAvoid(parts[i], '.');
    }
    SplitJoin(parts, '.');
  }

  lemma FormatSlash24(base: Addr)
    ensures FormatNetwork(Network(base, 24)) == FormatAddr(base) + "/24"
  {
    var parts := [FormatAddr(base), DecimalString(24)];
    assert DecimalString(24) == "24";
    assert parts[1..] == ["24"];
    assert Join(parts[1..], '/') == "24";
    assert Join(parts, '/') == FormatAddr(base) + ['/'] + "24";
  }

  /** The `/24` holding an address is its first three bytes and a zero. */
  lemma MaskedSlash24(a: Addr)
    ensures var o := Octets(a); o[0] <= 255 && o[1] <= 255 && o[2] <= 255
    ensures var o := Octets(a); Masked(Network(a, 24)) == Network(FromOctets(o[0], o[1], o[2], 0), 24)
  {
    var o := Octets(a);
    OctetsRoundTrip(a);
    var low := FromOctets(o[0], o[1], o[2], 0);
    var q := o[0] * 0x1_0000 + o[1] * 0x100 + o[2];
    assert low == q * 256;
    Pow2Add(4, 4);
    assert Pow2(4) == 16;
    assert Size(24) == 256;
    DivUnique(low, 256, q, 0);
    CanonicalMod(Network(low, 24));
    MaskedUnique(Network(a, 24), Network(low, 24));
  }

  /** The text of an address whose last byte is zero. */
  lemma FormatClearedAddr(b0: nat, b1: nat, b2: nat)
    requires b0 <= 255 && b1 <= 255 && b2 <= 255
    ensures FormatAddr(FromOctets(b0, b1, b2, 0))
            == Join([DecimalString(b0), DecimalString(b1), DecimalString(b2)], '.') + ".0"
  {
    FromOctetsBytes(b0, b1, b2, 0);
    assert DecimalString(0) == "0";
    var three := [DecimalString(b0), DecimalString(b1), DecimalString(b2)];
    JoinAppend(three, "0", '.');
    assert three + ["0"] == [DecimalString(b0), DecimalString(b1), DecimalString(b2), DecimalString(0)];
  }

  /** The masked network of `n` is the only canonical network of its length
      holding `n.base`. */
  lemma MaskedUnique(n: Network, c: Network)
    requires Canonical(c) && c.len == n.len && Contains(c, n.base)
    ensures Masked(n) == c
  {
    var m := Masked(n);
    Laminar(m, c);
  }

  lemma {:induction false} JoinAppend(parts: seq<string>, last: string, sep: char)
    requires parts != []
    ensures Join(parts + [last], sep) == Join(parts, sep) + [sep] + last
  {
    if |parts| > 1 {
      JoinAppend(parts[1..], last, sep);
      assert (parts + [last])[1..] == parts[1..] + [last];
    }
  }

  // ---------------------------------------------------------------------
  // verify_firewall
  // ---------------------------------------------------------------------

  /** The positive probe of `verify_firewall`: the GitHub API when the
      policy names the `github` service, otherwise the first domain, and
      none when both lists are empty. */
  function VerifyEndpoint(p: Policy): (r: Option<Probe>)
    ensures r == Some(GithubZen) <==> JString("github") in p.services
    ensures r.None? <==> JString("github") !in p.services && p.domains == []
    ensures r.Some? && r.value.DomainRoot? ==> r.value.domain == p.domains[0]
  {
    if JString("github") in p.services then Some(GithubZen)
    else if p.domains != [] then Some(DomainRoot(p.domains[0]))
    else None
  }
}
