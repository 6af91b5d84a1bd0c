/**
 * The mitmproxy addon `PolicyEnforcer` of images/proxy/addons/enforcer.py as
 * the object it is: its allowlist and its output change as start-up adds
 * patterns and as the hooks write records. Every method is proved to do what
 * the value-level account in `EnforcerSpec` says.
 */
module Enforcer {
  import opened Results
  import opened Text
  import opened EnforcerSpec

  class PolicyEnforcer {
    /** `PROXY_MODE` and `PROXY_LOG_LEVEL`, read once at start-up. */
    const mode: string
    const logLevel: string

    var allowedExact: set<string>
    var allowedWildcards: seq<string>
    /** The records written to standard output so far. */
    var output: seq<Entry>
    /** Start-up called `sys.exit(1)` or raised: the proxy does not run. */
    var halted: bool

    function Allowlist(): Table
      reads this
    {
      Table(allowedExact, allowedWildcards)
    }

    /** `__init__`. */
    constructor (mode: string, logLevel: string, source: PolicySource)
      ensures this.mode == mode && this.logLevel == logLevel
      ensures Allowlist() == Build(Startup(mode, source).added)
      ensures output == Infos(Startup(mode, source).log)
      ensures halted == Startup(mode, source).halted
    {
      this.mode := mode;
      this.logLevel := logLevel;
      allowedExact := {};
      allowedWildcards := [];
      output := [];
      halted := false;
      new;
      if mode == "enforce" {
        LoadPolicy(source);
      } else if mode == "log" {
        LogInfo(LogModeNotice);
      } else {
        LogInfo(UnknownMode(mode));
        halted := true;
      }
    }

    /** `_log_info`: written at every log level. */
    method LogInfo(message: Message)
      modifies this`output
      ensures output == old(output) + [Info(message)]
    {
      output := output + [Info(message)];
    }

    /** `_log`: suppressed at the quiet level. */
    method Log(e: Entry)
      modifies this`output
      ensures output == old(output) + Emit(logLevel, e)
    {
      if logLevel != "quiet" {
        output := output + [e];
      }
    }

    /** `_add_domain`. */
    method AddDomain(domain: string)
      modifies this`allowedExact, this`allowedWildcards, this`output
      ensures Allowlist() == EnforcerSpec.AddDomain(old(Allowlist()), domain)
      ensures output == old(output) + [Info(Adding(YStr(domain)))]
    {
      LogInfo(Adding(YStr(domain)));
      if StartsWith(domain, "*.") {
        allowedWildcards := allowedWildcards + [domain[2..]];
      } else {
        allowedExact := allowedExact + {domain};
      }
    }

    /** `_load_policy`, run on the empty allowlist. */
    method LoadPolicy(source: PolicySource)
      requires Allowlist() == Build([]) && !halted
      modifies this
      ensures Allowlist() == Build(LoadBoot(ServiceDomains, source).added)
      ensures output == old(output) + Infos(LoadBoot(ServiceDomains, source).log)
      ensures halted == LoadBoot(ServiceDomains, source).halted
    {
      if source.NoFile? {
        LogInfo(NoPolicyFile);
        halted := true;
        return;
      }
      if source.Unparsable? {
        halted := true;
        return;
      }
      LoadDocument(ServiceDomains, source.doc);
    }

    /** `_load_policy` once the file has parsed, for a given catalog. */
    method LoadDocument(catalog: Catalog, doc: Yaml)
      requires Allowlist() == Build([]) && !halted
      modifies this
      ensures var r := LoadBoot(catalog, Loaded(doc));
              Allowlist() == Build(r.added) && output == old(output) + Infos(r.log) && halted == r.halted
    {
      var policy := if Truthy(doc) then doc else YMap([]);
      if !policy.YMap? {
        halted := true;
        return;
      }
      var services := Items(Get(policy.entries, YStr("services")));
      if services.None? {
        halted := true;
        return;
      }
      ghost var base := output;
      LoadServices(catalog, services.value, base);
      if halted {
        return;
      }
      LoadRest(policy, ServicesBoot(catalog, Fresh, services.value), base);
    }

    /** The domains loop and the summary of `_load_policy`. */
    method LoadRest(policy: Yaml, ghost b: Boot, ghost base: seq<Entry>)
      requires policy.YMap? && !b.halted
      requires Allowlist() == Build(b.added) && output == base + Infos(b.log) && !halted
      modifies this
      ensures var r := match Items(Get(policy.entries, YStr("domains")))
                case None => b.(halted := true)
                case Some(ds) =>
                  var d := DomainsBoot(b, ds);
                  if d.halted then d else d.(log := d.log + [Summary(d.added)]);
              Allowlist() == Build(r.added) && output == base + Infos(r.log) && halted == r.halted
    {
      var domains := Items(Get(policy.entries, YStr("domains")));
      if domains.None? {
        halted := true;
        return;
      }
      LoadDomains(domains.value, b, base);
      var d := DomainsBoot(b, domains.value);
      if halted {
        return;
      }
      InfosSnoc(d.log, Summary(d.added));
      LogInfo(PolicyLoaded(|allowedExact|, |allowedWildcards|));
    }

    /** The services loop of `_load_policy`. */
    method LoadServices(catalog: Catalog, svcs: seq<Yaml>, ghost base: seq<Entry>)
      requires Allowlist() == Build([]) && !halted && output == base
      modifies this
      ensures var r := ServicesBoot(catalog, Fresh, svcs);
              Allowlist() == Build(r.added) && output == base + Infos(r.log) && halted == r.halted
    {
      ghost var b := Fresh;
      var i := 0;
      while i < |svcs|
        invariant 0 <= i <= |svcs|
        invariant b == ServicesBoot(catalog, Fresh, svcs[..i]) && !b.halted
        invariant Allowlist() == Build(b.added) && output == base + Infos(b.log) && !halted
      {
        ServicesBootStep(catalog, Fresh, svcs, i);
        LoadService(catalog, svcs[i], b, base);
        b := ServiceBoot(catalog, b, svcs[i]);
        if halted {
          ServicesHaltStays(catalog, Fresh, svcs, i + 1);
          return;
        }
        i := i + 1;
      }
      assert svcs[..i] == svcs;
    }

    /** One turn of the services loop. */
    method LoadService(catalog: Catalog, svc: Yaml, ghost b: Boot, ghost base: seq<Entry>)
      requires !b.halted && Allowlist() == Build(b.added) && output == base + Infos(b.log) && !halted
      modifies this
      ensures var r := ServiceBoot(catalog, b, svc);
              Allowlist() == Build(r.added) && output == base + Infos(r.log) && halted == r.halted
    {
      if svc.YList? || svc.YMap? {
        halted := true;
        return;
      }
      var patterns := ServicePatterns(catalog, svc);
      if patterns != [] {
        AddPatterns(patterns, b, base);
      } else {
        LogInfo(UnknownService(svc));
        InfosSnoc(b.log, UnknownService(svc));
      }
    }

    /** The domains loop of `_load_policy`. */
    method LoadDomains(ds: seq<Yaml>, ghost b0: Boot, ghost base: seq<Entry>)
      requires !b0.halted && Allowlist() == Build(b0.added) && !halted && output == base + Infos(b0.log)
      modifies this
      ensures var r := DomainsBoot(b0, ds);
              Allowlist() == Build(r.added) && output == base + Infos(r.log) && halted == r.halted
    {
      ghost var b := b0;
      var k := 0;
      while k < |ds|
        invariant 0 <= k <= |ds|
        invariant b == DomainsBoot(b0, ds[..k]) && !b.halted
        invariant Allowlist() == Build(b.added) && output == base + Infos(b.log) && !halted
      {
        DomainsBootStep(b0, ds, k);
        LoadDomain(ds[k], b, base);
        b := DomainBoot(b, ds[k]);
        if halted {
          DomainsHaltStays(b0, ds, k + 1);
          return;
        }
        k := k + 1;
      }
      assert ds[..k] == ds;
    }

    /** One turn of the domains loop: `_add_domain` writes its message, then
        a domain that is not a string raises. */
    method LoadDomain(domain: Yaml, ghost b: Boot, ghost base: seq<Entry>)
      requires !b.halted && Allowlist() == Build(b.added) && output == base + Infos(b.log) && !halted
      modifies this
      ensures var r := DomainBoot(b, domain);
              Allowlist() == Build(r.added) && output == base + Infos(r.log) && halted == r.halted
    {
      InfosSnoc(b.log, Adding(domain));
      if !domain.YStr? {
        LogInfo(Adding(domain));
        halted := true;
        return;
      }
      AddDomain(domain.s);
      BuildSnoc(b.added, domain.s);
    }

    /** The inner loop of `_load_policy`: every pattern of a known service,
        in order. */
    method AddPatterns(patterns: seq<string>, ghost b: Boot, ghost base: seq<Entry>)
      requires Allowlist() == Build(b.added) && output == base + Infos(b.log)
      modifies this`allowedExact, this`allowedWildcards, this`output
      ensures Allowlist() == Build(b.added + patterns)
      ensures output == base + Infos(b.log + Announce(patterns))
    {
      ghost var added, log := b.added, b.log;
      ghost var announced := Announce(patterns);
      var j := 0;
      while j < |patterns|
        invariant 0 <= j <= |patterns|
        invariant added == b.added + patterns[..j] && log == b.log + announced[..j]
        invariant Allowlist() == Build(added) && output == base + Infos(log)
      {
        BuildSnoc(added, patterns[j]);
        InfosSnoc(log, announced[j]);
        ExtendPrefix(b.added, patterns, j);
        ExtendPrefix(b.log, announced, j);
        AddDomain(patterns[j]);
        added, log := added + [patterns[j]], log + [announced[j]];
        j := j + 1;
      }
      assert patterns[..j] == patterns && announced[..j] == announced;
    }

    /** `_is_allowed`: the scan over the wildcard suffixes stops at the
        first match. */
    method IsAllowed(host: string) returns (allowed: bool)
      ensures allowed == Allowed(mode, Allowlist(), host)
    {
      if mode == "log" {
        return true;
      }
      if host in allowedExact {
        return true;
      }
      var i := 0;
      while i < |allowedWildcards|
        invariant 0 <= i <= |allowedWildcards|
        invariant forall j :: 0 <= j < i ==> !Matches(host, allowedWildcards[j])
      {
        var suffix := allowedWildcards[i];
        if host == suffix || EndsWith(host, "." + suffix) {
          return true;
        }
        i := i + 1;
      }
      return false;
    }

    /** `http_connect`. */
    method HttpConnect(flow: Flow) returns (result: Flow)
      requires flow.request.Some?
      modifies this`output
      ensures result == Connect(mode, Allowlist(), logLevel, flow).flow
      ensures output == old(output) + Connect(mode, Allowlist(), logLevel, flow).logged
    {
      var host := flow.request.value.host;
      var allowed := IsAllowed(host);
      result := flow;
      if !allowed {
        Log(ConnectBlocked(host));
        result := flow.(response := Some(Forbidden(host)));
      }
    }

    /** `request`. */
    method HandleRequest(flow: Flow) returns (result: Flow)
      requires flow.request.Some?
      modifies this`output
      ensures result == OnRequest(mode, Allowlist(), logLevel, flow).flow
      ensures output == old(output) + OnRequest(mode, Allowlist(), logLevel, flow).logged
    {
      result := flow;
      var r := flow.request.value;
      if r.scheme == "http" {
        var allowed := IsAllowed(r.host);
        if !allowed {
          Log(RequestBlocked(r.verb, r.host, r.path));
          result := flow.(response := Some(Forbidden(r.host)));
        }
      }
    }

    /** `response`. */
    method HandleResponse(flow: Flow)
      requires flow.request.Some? && flow.response.Some?
      modifies this`output
      ensures output == old(output) + OnResponse(logLevel, flow).logged
    {
      var r := flow.request.value;
      Log(Completed(r.verb, r.host, r.path, flow.response.value.status));
    }

    /** `error`. */
    method HandleError(flow: Flow)
      modifies this`output
      ensures output == old(output) + OnError(logLevel, flow).logged
    {
      var host := if flow.request.Some? then flow.request.value.host else "unknown";
      var path := if flow.request.Some? then flow.request.value.path else "unknown";
      var error := if flow.error.Some? then flow.error.value else "unknown";
      Log(Failed(host, path, error));
    }
  }

  lemma ExtendPrefix<T>(a: seq<T>, s: seq<T>, j: nat)
    requires j < |s|
    ensures a + s[..j + 1] == (a + s[..j]) + [s[j]]
  {
    assert s[..j + 1] == s[..j] + [s[j]];
  }

  lemma InfosSnoc(log: seq<Message>, m: Message)
    ensures Infos(log + [m]) == Infos(log) + [Info(m)]
  {
  }
}
