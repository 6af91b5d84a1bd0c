/**
 * The proxy's allowlist, as values: the table `PolicyEnforcer` builds from
 * the policy (images/proxy/addons/enforcer.py), the allow/deny decision it
 * makes per host, what start-up logs and whether it stops the proxy, and what
 * each mitmproxy hook does to a flow and to the log.
 */
module EnforcerSpec {
  import opened Results
  import opened Text

  // ---------------------------------------------------------------------
  // The parsed policy
  // ---------------------------------------------------------------------

  /** A value of the policy after YAML parsing. A mapping lists its entries
      in document order; the parser has already made its keys distinct. */
  datatype Yaml =
    | YNull
    | YBool(b: bool)
    | YInt(i: int)
    | YStr(s: string)
    | YList(items: seq<Yaml>)
    | YMap(entries: seq<(Yaml, Yaml)>)

  /** What opening the policy path gives: no file, a file the YAML parser
      rejects, or a parsed document. */
  datatype PolicySource = NoFile | Unparsable | Loaded(doc: Yaml)

  /** Service names and the patterns each stands for. */
  type Catalog = map<string, seq<string>>

  /** The patterns each known service stands for, `SERVICE_DOMAINS`. */
  const ServiceDomains: Catalog := map[
    "github" := [
      "github.com",
      "*.github.com",
      "githubusercontent.com",
      "*.githubusercontent.com"],
    "claude" := [
      "*.anthropic.com",
      "*.claude.ai",
      "*.claude.com",
      "*.sentry.io",
      "*.datadoghq.com"],
    "copilot" := [
      "github.com",
      "api.github.com",
      "copilot-telemetry.githubusercontent.com",
      "collector.github.com",
      "default.exp-tas.com",
      "copilot-proxy.githubusercontent.com",
      "origin-tracker.githubusercontent.com",
      "*.githubcopilot.com",
      "*.individual.githubcopilot.com",
      "*.business.githubcopilot.com",
      "*.enterprise.githubcopilot.com",
      "*.githubassets.com"],
    "vscode" := [
      "update.code.visualstudio.com",
      "marketplace.visualstudio.com",
      "mobile.events.data.microsoft.com",
      "main.vscode-cdn.net",
      "*.vsassets.io"],
    "jetbrains" := [
      "plugins.jetbrains.com",
      "downloads.marketplace.jetbrains.com"]
  ]

  /** Python truth value of a parsed value. */
  predicate Truthy(v: Yaml) {
    match v
    case YNull => false
    case YBool(b) => b
    case YInt(i) => i != 0
    case YStr(s) => s != []
    case YList(items) => items != []
    case YMap(entries) => entries != []
  }

  /** `m.get(key)`: the value of the entry with that key, `None` when there
      is none. */
  function Get(entries: seq<(Yaml, Yaml)>, key: Yaml): (r: Yaml)
    ensures (forall i :: 0 <= i < |entries| ==> entries[i].0 != key) ==> r == YNull
    ensures r != YNull ==> exists i :: 0 <= i < |entries| && entries[i] == (key, r)
  {
    if entries == [] then YNull
    else if entries[0].0 == key then entries[0].1
    else Get(entries[1..], key)
  }

  /** What `for x in (v or [])` visits: nothing for a false value, the
      characters of a string, the items of a list, the keys of a mapping;
      `None` where Python raises because a number or `True` is not
      iterable. */
  function Items(v: Yaml): (r: Option<seq<Yaml>>)
    ensures !Truthy(v) ==> r == Some([])
    ensures r.None? <==> (v.YInt? && v.i != 0) || v == YBool(true)
    ensures v.YList? ==> r == Some(v.items)
    ensures v.YStr? ==> r.Some? && |r.value| == |v.s|
  {
    if !Truthy(v) then Some([])
    else match v
      case YStr(s) => Some(Chars(s))
      case YList(items) => Some(items)
      case YMap(entries) => Some(Keys(entries))
      case _ => None
  }

  /** The one-character strings of a string, in order. */
  function Chars(s: string): (r: seq<Yaml>)
    ensures |r| == |s| && forall i :: 0 <= i < |s| ==> r[i] == YStr([s[i]])
  {
    seq(|s|, i requires 0 <= i < |s| => YStr([s[i]]))
  }

  /** The keys of a mapping, in order. */
  function Keys(entries: seq<(Yaml, Yaml)>): (r: seq<Yaml>)
    ensures |r| == |entries| && forall i :: 0 <= i < |entries| ==> r[i] == entries[i].0
  {
    seq(|entries|, i requires 0 <= i < |entries| => entries[i].0)
  }

  /** `policy or {}`, the document the loader reads keys from. */
  function PolicyDoc(doc: Yaml): Yaml {
    if Truthy(doc) then doc else YMap([])
  }

  /** What the services loop visits, when the document is a mapping. */
  function PolicyServices(doc: Yaml): Option<seq<Yaml>>
    requires PolicyDoc(doc).YMap?
  {
    Items(Get(PolicyDoc(doc).entries, YStr("services")))
  }

  /** What the domains loop visits, when the document is a mapping. */
  function PolicyDomains(doc: Yaml): Option<seq<Yaml>>
    requires PolicyDoc(doc).YMap?
  {
    Items(Get(PolicyDoc(doc).entries, YStr("domains")))
  }

  // ---------------------------------------------------------------------
  // The table and the decision
  // ---------------------------------------------------------------------

  /** `allowed_exact` and `allowed_wildcards`. */
  datatype Table = Table(exact: set<string>, wildcards: seq<string>)

  /** `_add_domain`: a `*.` pattern contributes its suffix, anything else
      the exact name. */
  function AddDomain(t: Table, d: string): Table {
    if StartsWith(d, "*.") then t.(wildcards := t.wildcards + [d[2..]])
    else t.(exact := t.exact + {d})
  }

  /** The table after adding the patterns in order to empty sets. */
  function Build(ds: seq<string>): Table {
    if ds == [] then Table({}, [])
    else AddDomain(Build(ds[..|ds| - 1]), ds[|ds| - 1])
  }

  /** The wildcard test: the host is the suffix or ends in `.` and the
      suffix. */
  predicate Matches(host: string, suffix: string) {
    host == suffix || EndsWith(host, "." + suffix)
  }

  /** The enforcing decision of `_is_allowed`. */
  predicate Permits(t: Table, host: string) {
    host in t.exact || exists i :: 0 <= i < |t.wildcards| && Matches(host, t.wildcards[i])
  }

  /** `_is_allowed`: every host in log mode, the table's decision
      otherwise. */
  predicate Allowed(mode: string, t: Table, host: string) {
    mode == "log" || Permits(t, host)
  }

  /** What one policy pattern lets through, read off the pattern alone. */
  predicate Admits(pattern: string, host: string) {
    if StartsWith(pattern, "*.") then Matches(host, pattern[2..]) else host == pattern
  }

  /** A wildcard match ends at a label boundary: the host is the suffix, or
      the suffix preceded by a dot. */
  lemma MatchesAtLabel(host: string, suffix: string)
    ensures Matches(host, suffix) <==>
            host == suffix
            || (|host| > |suffix| && host[|host| - |suffix| - 1] == '.' && host[|host| - |suffix|..] == suffix)
  {
    if |host| > |suffix| && host[|host| - |suffix| - 1] == '.' && host[|host| - |suffix|..] == suffix {
      assert host[|host| - |suffix| - 1..] == "." + suffix;
    }
    if EndsWith(host, "." + suffix) {
      assert host[|host| - |suffix| - 1..][0] == '.';
      assert host[|host| - |suffix| - 1..][1..] == host[|host| - |suffix|..];
    }
  }

  /** `sub.example.com` and `example.com` pass the suffix `example.com`;
      `evilexample.com` does not. */
  lemma LabelBoundaryExamples()
    ensures Matches("sub.example.com", "example.com")
    ensures Matches("example.com", "example.com")
    ensures !Matches("evilexample.com", "example.com")
  {
    MatchesAtLabel("sub.example.com", "example.com");
    MatchesAtLabel("evilexample.com", "example.com");
    assert "evilexample.com"[3] == 'l';
  }

  /** In log mode every host is allowed, whatever the table holds. */
  lemma LogModeAllowsAll(t: Table, host: string)
    ensures Allowed("log", t, host)
  {
  }

  /** Adding a pattern lets through exactly what it admits, on top of what
      was let through before. */
  lemma AddDomainPermits(t: Table, d: string, host: string)
    ensures Permits(AddDomain(t, d), host) <==> Permits(t, host) || Admits(d, host)
  {
    var r := AddDomain(t, d);
    if StartsWith(d, "*.") {
      assert r.wildcards[|t.wildcards|] == d[2..];
      if Permits(r, host) && host !in t.exact {
        var i :| 0 <= i < |r.wildcards| && Matches(host, r.wildcards[i]);
        if i < |t.wildcards| {
          assert Matches(host, t.wildcards[i]);
        }
      }
      if Permits(t, host) && host !in t.exact {
        var i :| 0 <= i < |t.wildcards| && Matches(host, t.wildcards[i]);
        assert r.wildcards[i] == t.wildcards[i];
      }
    }
  }

  /** The table built from a list of patterns lets a host through iff one
      of the patterns admits it. */
  lemma {:induction false} BuildPermits(ds: seq<string>, host: string)
    ensures Permits(Build(ds), host) <==> AdmittedBy(ds, host)
    decreases |ds|
  {
    if ds != [] {
      var init := ds[..|ds| - 1];
      BuildPermits(init, host);
      AddDomainPermits(Build(init), ds[|ds| - 1], host);
      if exists i :: 0 <= i < |ds| && Admits(ds[i], host) {
        var i :| 0 <= i < |ds| && Admits(ds[i], host);
        if i < |ds| - 1 {
          assert init[i] == ds[i];
        }
      }
      if exists i :: 0 <= i < |init| && Admits(init[i], host) {
        var i :| 0 <= i < |init| && Admits(init[i], host);
        assert ds[i] == init[i];
      }
    }
  }

  /** Adding patterns never turns an allowed host into a denied one. */
  lemma BuildMonotone(ds: seq<string>, more: seq<string>, host: string)
    requires Permits(Build(ds), host)
    ensures Permits(Build(ds + more), host)
  {
    BuildPermits(ds, host);
    BuildPermits(ds + more, host);
    var i :| 0 <= i < |ds| && Admits(ds[i], host);
    assert (ds + more)[i] == ds[i];
  }

  /** The exact names of a pattern list, and its wildcard suffixes in
      order. */
  function Exacts(ds: seq<string>): set<string> {
    set i | 0 <= i < |ds| && !StartsWith(ds[i], "*.") :: ds[i]
  }

  function Suffixes(ds: seq<string>): seq<string> {
    if ds == [] then []
    else Suffixes(ds[..|ds| - 1]) + (if StartsWith(ds[|ds| - 1], "*.") then [ds[|ds| - 1][2..]] else [])
  }

  /** The two parts of the built table, read off the patterns directly;
      their sizes are the counts of the start-up summary. */
  lemma {:induction false} BuildParts(ds: seq<string>)
    ensures Build(ds).exact == Exacts(ds)
    ensures Build(ds).wildcards == Suffixes(ds)
    decreases |ds|
  {
    if ds != [] {
      var init := ds[..|ds| - 1];
      BuildParts(init);
      var last := ds[|ds| - 1];
      forall x | x in Exacts(ds)
        ensures x in Build(ds).exact
      {
        var i :| 0 <= i < |ds| && !StartsWith(ds[i], "*.") && ds[i] == x;
        if i < |ds| - 1 {
          assert init[i] == x;
        }
      }
      forall x | x in Build(ds).exact
        ensures x in Exacts(ds)
      {
        if x in Exacts(init) {
          var i :| 0 <= i < |init| && !StartsWith(init[i], "*.") && init[i] == x;
          assert ds[i] == x;
        }
      }
    }
  }

  // ---------------------------------------------------------------------
  // Start-up
  // ---------------------------------------------------------------------

  /** The info messages start-up writes. */
  datatype Message =
    | LogModeNotice
    | UnknownMode(mode: string)
    | NoPolicyFile
    | UnknownService(service: Yaml)
    | Adding(domain: Yaml)
    | PolicyLoaded(exactCount: nat, wildcardCount: nat)

  /** Start-up so far: the patterns added, the messages written, and
      whether it has stopped the proxy (`sys.exit(1)` or an exception out
      of `__init__`). */
  datatype Boot = Boot(added: seq<string>, log: seq<Message>, halted: bool)

  const Fresh := Boot([], [], false)

  /** The messages `_add_domain` writes for a list of patterns. */
  function Announce(ds: seq<string>): (r: seq<Message>)
    ensures |r| == |ds| && forall i :: 0 <= i < |ds| ==> r[i] == Adding(YStr(ds[i]))
  {
    seq(|ds|, i requires 0 <= i < |ds| => Adding(YStr(ds[i])))
  }

  /** A service that cannot be a key: looking it up raises. */
  predicate Unhashable(v: Yaml) {
    v.YList? || v.YMap?
  }

  /** The patterns a service entry stands for; none for an unknown one. */
  function ServicePatterns(catalog: Catalog, svc: Yaml): seq<string> {
    if svc.YStr? && svc.s in catalog then catalog[svc.s] else []
  }

  /** One turn of the services loop. */
  function ServiceBoot(catalog: Catalog, b: Boot, svc: Yaml): Boot {
    if Unhashable(svc) then b.(halted := true)
    else if ServicePatterns(catalog, svc) != [] then
      Boot(b.added + ServicePatterns(catalog, svc), b.log + Announce(ServicePatterns(catalog, svc)), b.halted)
    else b.(log := b.log + [UnknownService(svc)])
  }

  /** The services loop, up to the first entry that raises. */
  function ServicesBoot(catalog: Catalog, b: Boot, svcs: seq<Yaml>): Boot {
    if svcs == [] then b
    else
      var p := ServicesBoot(catalog, b, svcs[..|svcs| - 1]);
      if p.halted then p else ServiceBoot(catalog, p, svcs[|svcs| - 1])
  }

  /** One turn of the domains loop: the message is written before a
      non-string domain makes `startswith` raise. */
  function DomainBoot(b: Boot, d: Yaml): Boot {
    if d.YStr? then Boot(b.added + [d.s], b.log + [Adding(d)], b.halted)
    else Boot(b.added, b.log + [Adding(d)], true)
  }

  /** The domains loop, up to the first entry that raises. */
  function DomainsBoot(b: Boot, ds: seq<Yaml>): Boot {
    if ds == [] then b
    else
      var p := DomainsBoot(b, ds[..|ds| - 1]);
      if p.halted then p else DomainBoot(p, ds[|ds| - 1])
  }

  /** The summary line closing a load. */
  function Summary(added: seq<string>): Message {
    PolicyLoaded(|Build(added).exact|, |Build(added).wildcards|)
  }

  /** `_load_policy`. */
  function LoadBoot(catalog: Catalog, source: PolicySource): (r: Boot)
    ensures source.NoFile? ==> r == Boot([], [NoPolicyFile], true)
    ensures !r.halted ==> r.log != [] && r.log[|r.log| - 1] == Summary(r.added)
  {
    match source
    case NoFile => Boot([], [NoPolicyFile], true)
    case Unparsable => Boot([], [], true)
    case Loaded(doc) =>
      if !PolicyDoc(doc).YMap? then Boot([], [], true)
      else match PolicyServices(doc)
        case None => Boot([], [], true)
        case Some(svcs) =>
          var b := ServicesBoot(catalog, Fresh, svcs);
          if b.halted then b
          else match PolicyDomains(doc)
            case None => b.(halted := true)
            case Some(ds) =>
              var d := DomainsBoot(b, ds);
              if d.halted then d else d.(log := d.log + [Summary(d.added)])
  }

  /** `__init__`: load the policy in enforce mode, announce log mode, stop
      on any other mode. */
  function Startup(mode: string, source: PolicySource): (r: Boot)
    ensures mode == "log" ==> r == Boot([], [LogModeNotice], false)
    ensures mode != "log" && mode != "enforce" ==> r.halted && r.added == []
  {
    if mode == "enforce" then LoadBoot(ServiceDomains, source)
    else if mode == "log" then Boot([], [LogModeNotice], false)
    else Boot([], [UnknownMode(mode)], true)
  }

  /** The services loop run one entry further. */
  lemma ServicesBootStep(catalog: Catalog, b: Boot, svcs: seq<Yaml>, i: nat)
    requires i < |svcs| && !ServicesBoot(catalog, b, svcs[..i]).halted
    ensures ServicesBoot(catalog, b, svcs[..i + 1]) == ServiceBoot(catalog, ServicesBoot(catalog, b, svcs[..i]), svcs[i])
  {
    assert svcs[..i + 1][..i] == svcs[..i];
  }

  /** The domains loop run one entry further. */
  lemma DomainsBootStep(b: Boot, ds: seq<Yaml>, k: nat)
    requires k < |ds| && !DomainsBoot(b, ds[..k]).halted
    ensures DomainsBoot(b, ds[..k + 1]) == DomainBoot(DomainsBoot(b, ds[..k]), ds[k])
  {
    assert ds[..k + 1][..k] == ds[..k];
  }

  /** Once the services loop has stopped, later entries change nothing. */
  lemma {:induction false} ServicesHaltStays(catalog: Catalog, b: Boot, svcs: seq<Yaml>, k: nat)
    requires k <= |svcs| && ServicesBoot(catalog, b, svcs[..k]).halted
    ensures ServicesBoot(catalog, b, svcs) == ServicesBoot(catalog, b, svcs[..k])
    decreases |svcs|
  {
    if k < |svcs| {
      var init := svcs[..|svcs| - 1];
      assert init[..k] == svcs[..k];
      ServicesHaltStays(catalog, b, init, k);
    } else {
      assert svcs[..k] == svcs;
    }
  }

  /** Once the domains loop has stopped, later entries change nothing. */
  lemma {:induction false} DomainsHaltStays(b: Boot, ds: seq<Yaml>, k: nat)
    requires k <= |ds| && DomainsBoot(b, ds[..k]).halted
    ensures DomainsBoot(b, ds) == DomainsBoot(b, ds[..k])
    decreases |ds|
  {
    if k < |ds| {
      var init := ds[..|ds| - 1];
      assert init[..k] == ds[..k];
      DomainsHaltStays(b, init, k);
    } else {
      assert ds[..k] == ds;
    }
  }

  /** The table grows one pattern at a time. */
  lemma BuildSnoc(ds: seq<string>, d: string)
    ensures Build(ds + [d]) == AddDomain(Build(ds), d)
  {
    assert (ds + [d])[..|ds|] == ds;
  }

  /** The patterns the services contribute, in order. */
  function Expand(catalog: Catalog, svcs: seq<Yaml>): seq<string> {
    if svcs == [] then [] else Expand(catalog, svcs[..|svcs| - 1]) + ServicePatterns(catalog, svcs[|svcs| - 1])
  }

  /** The string domains, in order. */
  function Names(ds: seq<Yaml>): seq<string> {
    if ds == [] then []
    else Names(ds[..|ds| - 1]) + (if ds[|ds| - 1].YStr? then [ds[|ds| - 1].s] else [])
  }

  /** The services loop stops exactly at an unhashable entry; otherwise it
      adds every known service's patterns, in order, and nothing for the
      others. */
  lemma {:induction false} ServicesBootSpec(catalog: Catalog, b: Boot, svcs: seq<Yaml>)
    requires !b.halted
    ensures ServicesBoot(catalog, b, svcs).halted <==> exists i :: 0 <= i < |svcs| && Unhashable(svcs[i])
    ensures !ServicesBoot(catalog, b, svcs).halted ==> ServicesBoot(catalog, b, svcs).added == b.added + Expand(catalog, svcs)
    decreases |svcs|
  {
    if svcs != [] {
      var init := svcs[..|svcs| - 1];
      var last := svcs[|svcs| - 1];
      var p := ServicesBoot(catalog, b, init);
      ServicesBootSpec(catalog, b, init);
      if !ServicesBoot(catalog, b, svcs).halted {
        var patterns := ServicePatterns(catalog, last);
        assert !p.halted && ServiceBoot(catalog, p, last).added == p.added + patterns;
        assert (b.added + Expand(catalog, init)) + patterns == b.added + (Expand(catalog, init) + patterns);
      }
      if exists i :: 0 <= i < |svcs| && Unhashable(svcs[i]) {
        var i :| 0 <= i < |svcs| && Unhashable(svcs[i]);
        if i < |svcs| - 1 {
          assert Unhashable(init[i]);
        }
      }
      if exists i :: 0 <= i < |init| && Unhashable(init[i]) {
        var i :| 0 <= i < |init| && Unhashable(init[i]);
        assert Unhashable(svcs[i]);
      }
    }
  }

  /** The domains loop stops exactly at a non-string entry; otherwise it
      adds every domain, in order. */
  lemma {:induction false} DomainsBootSpec(b: Boot, ds: seq<Yaml>)
    requires !b.halted
    ensures DomainsBoot(b, ds).halted <==> exists i :: 0 <= i < |ds| && !ds[i].YStr?
    ensures !DomainsBoot(b, ds).halted ==> DomainsBoot(b, ds).added == b.added + Names(ds)
    decreases |ds|
  {
    if ds != [] {
      var init := ds[..|ds| - 1];
      var last := ds[|ds| - 1];
      var p := DomainsBoot(b, init);
      DomainsBootSpec(b, init);
      if !DomainsBoot(b, ds).halted {
        var names := if last.YStr? then [last.s] else [];
        assert !p.halted && DomainBoot(p, last).added == p.added + names;
        assert (b.added + Names(init)) + names == b.added + (Names(init) + names);
      }
      if exists i :: 0 <= i < |ds| && !ds[i].YStr? {
        var i :| 0 <= i < |ds| && !ds[i].YStr?;
        if i < |ds| - 1 {
          assert !init[i].YStr?;
        }
      }
      if exists i :: 0 <= i < |init| && !init[i].YStr? {
        var i :| 0 <= i < |init| && !init[i].YStr?;
        assert !ds[i].YStr?;
      }
    }
  }

  /** A load that does not stop adds the services' patterns, then the
      domains. */
  lemma LoadAdded(catalog: Catalog, doc: Yaml)
    requires !LoadBoot(catalog, Loaded(doc)).halted
    ensures PolicyDoc(doc).YMap? && PolicyServices(doc).Some? && PolicyDomains(doc).Some?
    ensures LoadBoot(catalog, Loaded(doc)).added == Expand(catalog, PolicyServices(doc).value) + Names(PolicyDomains(doc).value)
  {
    var svcs := PolicyServices(doc).value;
    var b := ServicesBoot(catalog, Fresh, svcs);
    assert !b.halted;
    var ds := PolicyDomains(doc).value;
    var d := DomainsBoot(b, ds);
    assert !d.halted && LoadBoot(catalog, Loaded(doc)).added == d.added;
    assert b.added == Expand(catalog, svcs) by {
      ServicesBootSpec(catalog, Fresh, svcs);
      assert [] + Expand(catalog, svcs) == Expand(catalog, svcs);
    }
    assert d.added == b.added + Names(ds) by {
      DomainsBootSpec(b, ds);
    }
  }

  /** Some pattern of the list admits the host. */
  predicate AdmittedBy(ds: seq<string>, host: string) {
    exists i :: 0 <= i < |ds| && Admits(ds[i], host)
  }

  lemma AdmittedByConcat(a: seq<string>, b: seq<string>, host: string)
    ensures AdmittedBy(a + b, host) <==> AdmittedBy(a, host) || AdmittedBy(b, host)
  {
    if AdmittedBy(a + b, host) {
      var k :| 0 <= k < |a + b| && Admits((a + b)[k], host);
      if k >= |a| {
        assert (a + b)[k] == b[k - |a|];
      }
    }
    if AdmittedBy(a, host) {
      var k :| 0 <= k < |a| && Admits(a[k], host);
      assert (a + b)[k] == a[k];
    }
    if AdmittedBy(b, host) {
      var k :| 0 <= k < |b| && Admits(b[k], host);
      assert (a + b)[|a| + k] == b[k];
    }
  }

  /** Some pattern a service entry stands for admits the host. */
  predicate ServiceAdmits(catalog: Catalog, svc: Yaml, host: string) {
    AdmittedBy(ServicePatterns(catalog, svc), host)
  }

  /** The services' patterns admit a host iff one listed service's own
      patterns do. */
  lemma {:induction false} ExpandAdmitted(catalog: Catalog, svcs: seq<Yaml>, host: string)
    ensures AdmittedBy(Expand(catalog, svcs), host) <==> exists i :: 0 <= i < |svcs| && ServiceAdmits(catalog, svcs[i], host)
    decreases |svcs|
  {
    if svcs != [] {
      var init := svcs[..|svcs| - 1];
      ExpandAdmitted(catalog, init, host);
      AdmittedByConcat(Expand(catalog, init), ServicePatterns(catalog, svcs[|svcs| - 1]), host);
      if exists i :: 0 <= i < |svcs| && ServiceAdmits(catalog, svcs[i], host) {
        var i :| 0 <= i < |svcs| && ServiceAdmits(catalog, svcs[i], host);
        if i < |svcs| - 1 {
          assert init[i] == svcs[i];
        }
      }
      if exists i :: 0 <= i < |init| && ServiceAdmits(catalog, init[i], host) {
        var i :| 0 <= i < |init| && ServiceAdmits(catalog, init[i], host);
        assert svcs[i] == init[i];
      }
    }
  }

  /** A string domain entry admits the host. */
  predicate DomainAdmits(d: Yaml, host: string) {
    d.YStr? && Admits(d.s, host)
  }

  /** The string domains admit a host iff one listed domain does. */
  lemma {:induction false} NamesAdmitted(ds: seq<Yaml>, host: string)
    ensures AdmittedBy(Names(ds), host) <==> exists i :: 0 <= i < |ds| && DomainAdmits(ds[i], host)
    decreases |ds|
  {
    if ds != [] {
      var init := ds[..|ds| - 1];
      var last := ds[|ds| - 1];
      NamesAdmitted(init, host);
      var tail := if last.YStr? then [last.s] else [];
      AdmittedByConcat(Names(init), tail, host);
      assert AdmittedBy(tail, host) <==> DomainAdmits(last, host) by {
        if AdmittedBy(tail, host) {
          var k :| 0 <= k < |tail| && Admits(tail[k], host);
        }
        if DomainAdmits(last, host) {
          assert Admits(tail[0], host);
        }
      }
      if exists i :: 0 <= i < |ds| && DomainAdmits(ds[i], host) {
        var i :| 0 <= i < |ds| && DomainAdmits(ds[i], host);
        if i < |ds| - 1 {
          assert init[i] == ds[i];
        }
      }
      if exists i :: 0 <= i < |init| && DomainAdmits(init[i], host) {
        var i :| 0 <= i < |init| && DomainAdmits(init[i], host);
        assert ds[i] == init[i];
      }
    }
  }

  /** A host passes the table of the services' patterns and the domains iff
      a pattern of one part or the other admits it. */
  lemma AddedPermits(catalog: Catalog, svcs: seq<Yaml>, ds: seq<Yaml>, host: string)
    ensures Permits(Build(Expand(catalog, svcs) + Names(ds)), host) <==>
              AdmittedBy(Expand(catalog, svcs), host) || AdmittedBy(Names(ds), host)
  {
    BuildPermits(Expand(catalog, svcs) + Names(ds), host);
    AdmittedByConcat(Expand(catalog, svcs), Names(ds), host);
  }

  /** What the services and domains of a loaded policy let through: a host
      passes iff a pattern of a listed known service admits it
      (`ExpandAdmitted`) or a listed domain does (`NamesAdmitted`). */
  lemma LoadedPermits(catalog: Catalog, doc: Yaml, host: string)
    requires !LoadBoot(catalog, Loaded(doc)).halted
    ensures PolicyDoc(doc).YMap? && PolicyServices(doc).Some? && PolicyDomains(doc).Some?
    ensures var svcs := PolicyServices(doc).value;
            var ds := PolicyDomains(doc).value;
            Permits(Build(LoadBoot(catalog, Loaded(doc)).added), host) <==>
              AdmittedBy(Expand(catalog, svcs), host) || AdmittedBy(Names(ds), host)
  {
    LoadAdded(catalog, doc);
    AddedPermits(catalog, PolicyServices(doc).value, PolicyDomains(doc).value, host);
  }

  /** Listing the `github` service lets `api.github.com` through. */
  lemma GithubServiceAdmitsApi(doc: Yaml)
    requires !LoadBoot(ServiceDomains, Loaded(doc)).halted
    requires PolicyDoc(doc).YMap? && PolicyServices(doc).Some?
    requires YStr("github") in PolicyServices(doc).value
    ensures Permits(Build(LoadBoot(ServiceDomains, Loaded(doc)).added), "api.github.com")
  {
    var svcs := PolicyServices(doc).value;
    GithubPatternsAdmitApi();
    ExpandAdmitted(ServiceDomains, svcs, "api.github.com");
    LoadedPermits(ServiceDomains, doc, "api.github.com");
  }

  /** `api.github.com` falls under the `*.github.com` pattern of the
      `github` service. */
  lemma GithubPatternsAdmitApi()
    ensures ServiceAdmits(ServiceDomains, YStr("github"), "api.github.com")
  {
    var ps := ServicePatterns(ServiceDomains, YStr("github"));
    assert ps[1] == "*.github.com";
    MatchesAtLabel("api.github.com", "github.com");
    assert "*.github.com"[2..] == "github.com";
    assert Admits(ps[1], "api.github.com");
  }

  // ---------------------------------------------------------------------
  // The hooks
  // ---------------------------------------------------------------------

  /** The request side of a flow. */
  datatype Request = Request(host: string, scheme: string, verb: string, path: string)

  datatype Response = Response(status: int, body: string)

  /** A mitmproxy flow: its request (absent on some failed flows), the
      response attached so far, and the error that ended it, if any. */
  datatype Flow = Flow(request: Option<Request>, response: Option<Response>, error: Option<string>)

  /** A line of the proxy's output. */
  datatype Entry =
    | Info(message: Message)
    | ConnectBlocked(host: string)
    | RequestBlocked(verb: string, host: string, path: string)
    | Completed(verb: string, host: string, path: string, status: int)
    | Failed(host: string, path: string, error: string)

  /** The info lines for a list of messages. */
  function Infos(log: seq<Message>): (r: seq<Entry>)
    ensures |r| == |log| && forall i :: 0 <= i < |log| ==> r[i] == Info(log[i])
  {
    seq(|log|, i requires 0 <= i < |log| => Info(log[i]))
  }

  /** `_log`: nothing at the quiet level. */
  function Emit(level: string, e: Entry): seq<Entry> {
    if level != "quiet" then [e] else []
  }

  /** The 403 attached to a blocked flow. */
  function Forbidden(host: string): Response {
    Response(403, "Blocked by proxy policy: " + host)
  }

  /** A hook's effect: the flow after it and the lines it wrote. */
  datatype Handled = Handled(flow: Flow, logged: seq<Entry>)

  /** `http_connect`. */
  function Connect(mode: string, t: Table, level: string, flow: Flow): Handled
    requires flow.request.Some?
  {
    var host := flow.request.value.host;
    if Allowed(mode, t, host) then Handled(flow, [])
    else Handled(flow.(response := Some(Forbidden(host))), Emit(level, ConnectBlocked(host)))
  }

  /** `request`: only plain-HTTP requests are checked. */
  function OnRequest(mode: string, t: Table, level: string, flow: Flow): Handled
    requires flow.request.Some?
  {
    var r := flow.request.value;
    if r.scheme == "http" && !Allowed(mode, t, r.host) then
      Handled(flow.(response := Some(Forbidden(r.host))), Emit(level, RequestBlocked(r.verb, r.host, r.path)))
    else Handled(flow, [])
  }

  /** `response`: log the completed exchange. */
  function OnResponse(level: string, flow: Flow): Handled
    requires flow.request.Some? && flow.response.Some?
  {
    var r := flow.request.value;
    Handled(flow, Emit(level, Completed(r.verb, r.host, r.path, flow.response.value.status)))
  }

  /** `error`: log the failure, with `unknown` for what is missing. */
  function OnError(level: string, flow: Flow): Handled {
    var host := if flow.request.Some? then flow.request.value.host else "unknown";
    var path := if flow.request.Some? then flow.request.value.path else "unknown";
    var error := if flow.error.Some? then flow.error.value else "unknown";
    Handled(flow, Emit(level, Failed(host, path, error)))
  }

  /** A CONNECT gets the 403 iff the host is not allowed; an allowed one is
      left alone and nothing is written. */
  lemma ConnectBlocksIffDenied(mode: string, t: Table, level: string, flow: Flow)
    requires flow.request.Some? && flow.response.None?
    ensures var h := Connect(mode, t, level, flow);
            (h.flow.response.Some? <==> !Allowed(mode, t, flow.request.value.host))
            && (h.flow.response.Some? ==> h.flow.response.value.status == 403)
            && h.flow.request == flow.request
            && (Allowed(mode, t, flow.request.value.host) ==> h == Handled(flow, []))
  {
  }

  /** Under an enforced policy, a CONNECT is refused iff no pattern of a
      listed service and no listed domain admits its host. */
  lemma ConnectEnforcesPolicy(catalog: Catalog, doc: Yaml, level: string, flow: Flow)
    requires !LoadBoot(catalog, Loaded(doc)).halted
    requires flow.request.Some? && flow.response.None?
    ensures PolicyDoc(doc).YMap? && PolicyServices(doc).Some? && PolicyDomains(doc).Some?
    ensures var svcs := PolicyServices(doc).value;
            var ds := PolicyDomains(doc).value;
            var host := flow.request.value.host;
            Connect("enforce", Build(LoadBoot(catalog, Loaded(doc)).added), level, flow).flow.response.Some? <==>
              !(AdmittedBy(Expand(catalog, svcs), host) || AdmittedBy(Names(ds), host))
  {
    LoadedPermits(catalog, doc, flow.request.value.host);
  }

  /** A request that is not plain HTTP passes the request hook untouched;
      a plain-HTTP one is decided as its CONNECT would be. */
  lemma RequestChecksOnlyHttp(mode: string, t: Table, level: string, flow: Flow)
    requires flow.request.Some? && flow.response.None?
    ensures flow.request.value.scheme != "http" ==> OnRequest(mode, t, level, flow) == Handled(flow, [])
    ensures flow.request.value.scheme == "http" ==>
              OnRequest(mode, t, level, flow).flow == Connect(mode, t, level, flow).flow
  {
  }

  /** At the quiet level no hook writes anything. */
  lemma QuietHooksWriteNothing(mode: string, t: Table, flow: Flow)
    ensures flow.request.Some? ==> Connect(mode, t, "quiet", flow).logged == []
    ensures flow.request.Some? ==> OnRequest(mode, t, "quiet", flow).logged == []
    ensures flow.request.Some? && flow.response.Some? ==> OnResponse("quiet", flow).logged == []
    ensures OnError("quiet", flow).logged == []
  {
  }
}
