/**
 * Where the allowed addresses come from: the IPv4 ranges of GitHub's meta
 * document (`fetch_github_ips`) and the IPv4 addresses of a domain
 * (`resolve_domain`). The network itself is an input: the meta document is
 * given already fetched and parsed, and name resolution is a function.
 */
module Resolve {
  import opened Results
  import opened Text
  import opened Ipaddress
  import opened Collapse
  import opened AddrText
  import opened FirewallText

  /** GitHub's meta document: the lists of ranges under each key. */
  type Meta = map<string, seq<string>>

  /** The keys `fetch_github_ips` requires, in the order it checks them. */
  const RequiredKeys: seq<string> := ["web", "api", "git"]

  /** The first required key the document lacks. */
  function MissingKey(meta: Meta): (r: Option<string>)
    ensures r.None? <==> (forall i :: 0 <= i < 3 ==> RequiredKeys[i] in meta)
    ensures r.Some? ==> exists i :: 0 <= i < 3 && RequiredKeys[i] == r.value && r.value !in meta
                                     && forall j :: 0 <= j < i ==> RequiredKeys[j] in meta
  {
    assert RequiredKeys[0] == "web" && RequiredKeys[1] == "api" && RequiredKeys[2] == "git";
    if "web" !in meta then Some("web")
    else if "api" !in meta then Some("api")
    else if "git" !in meta then Some("git")
    else None
  }

  /** The entries of the first `k` required keys, in the order the loop
      visits them. */
  function Visited(meta: Meta, k: nat): seq<string>
    requires k <= 3 && forall i :: 0 <= i < 3 ==> RequiredKeys[i] in meta
  {
    if k == 0 then [] else Visited(meta, k - 1) + meta[RequiredKeys[k - 1]]
  }

  /** An entry the loop skips as IPv6: it contains a colon. */
  predicate IsIPv6Entry(e: string) {
    HasInfix(e, ":")
  }

  /** An entry that aborts the fetch: not skipped, and not an IPv4 network. */
  predicate IsBadEntry(e: string) {
    !IsIPv6Entry(e) && !ValidCidr(e)
  }

  /** The first entry that aborts the fetch. */
  function FirstBad(entries: seq<string>): (r: Option<string>)
    ensures r.None? <==> forall i :: 0 <= i < |entries| ==> !IsBadEntry(entries[i])
    ensures r.Some? ==> exists i :: 0 <= i < |entries| && entries[i] == r.value && IsBadEntry(r.value)
                                     && forall j :: 0 <= j < i ==> !IsBadEntry(entries[j])
  {
    if entries == [] then None
    else
      var init := entries[..|entries| - 1];
      var first := FirstBad(init);
      assert forall i :: 0 <= i < |init| ==> init[i] == entries[i];
      if first.Some? then first
      else if IsBadEntry(entries[|entries| - 1]) then Some(entries[|entries| - 1])
      else None
  }

  /** The entries the fetch keeps: those that are not skipped. */
  function IPv4Entries(entries: seq<string>): set<string> {
    set e | e in entries && !IsIPv6Entry(e)
  }

  /** The networks of entries that are all valid, host bits cleared. */
  function NetworksOf(cidrs: set<string>): (nets: set<Network>)
    requires forall c :: c in cidrs ==> ValidCidr(c)
    ensures SetCanonical(nets)
  {
    set c | c in cidrs && ValidCidr(c) :: ParseNetwork(c).value
  }

  /** `str()` of each network. */
  function FormatAll(nets: seq<Network>): (strs: seq<string>)
    ensures |strs| == |nets|
    ensures forall i :: 0 <= i < |nets| ==> strs[i] == FormatNetwork(nets[i])
  {
    seq(|nets|, i requires 0 <= i < |nets| => FormatNetwork(nets[i]))
  }

  /** What `fetch_github_ips` returns or raises, given the fetched document
      (`None` when the fetch or the JSON decoding failed). */
  function GithubCidrs(meta: Option<Meta>): (r: Result<seq<string>, FirewallError>)
    ensures meta.None? ==> r == Err(MetaFetchFailed)
    ensures meta.Some? && MissingKey(meta.value).Some? ==> r == Err(MetaMissingKey(MissingKey(meta.value).value))
    ensures meta.Some? && MissingKey(meta.value).None? ==>
              (r.Ok? <==> FirstBad(Visited(meta.value, 3)).None?)
  {
    if meta.None? then Err(MetaFetchFailed)
    else
      var data := meta.value;
      var missing := MissingKey(data);
      if missing.Some? then Err(MetaMissingKey(missing.value))
      else
        var entries := Visited(data, 3);
        var bad := FirstBad(entries);
        if bad.Some? then Err(InvalidGithubCidr(bad.value))
        else Ok(FormatAll(Collapse.Collapse(NetworksOf(IPv4Entries(entries)))))
  }

  /** `fetch_github_ips` after the download: check the keys, collect the IPv4
      entries into a set (the first invalid one aborts), collapse them and
      write the result back as text. */
  method FetchGithubIps(meta: Option<Meta>) returns (r: Result<seq<string>, FirewallError>)
    ensures r == GithubCidrs(meta)
  {
    if meta.None? {
      return Err(MetaFetchFailed);
    }
    var data := meta.value;
    var missing := CheckKeys(data);
    if missing.Some? {
      return Err(MetaMissingKey(missing.value));
    }
    var cidrs, bad := CollectAll(data);
    if bad.Some? {
      return Err(InvalidGithubCidr(bad.value));
    }
    var networks := NetworksOf(cidrs);
    var aggregated := Collapse.Collapse(networks);
    r := Ok(FormatAll(aggregated));
  }

  /** The key check of `fetch_github_ips`: the first required key missing. */
  method CheckKeys(data: Meta) returns (missing: Option<string>)
    ensures missing == MissingKey(data)
  {
    var k := 0;
    while k < 3
      invariant 0 <= k <= 3
      invariant forall j :: 0 <= j < k ==> RequiredKeys[j] in data
    {
      if RequiredKeys[k] !in data {
        return Some(RequiredKeys[k]);
      }
      k := k + 1;
    }
    missing := None;
  }

  /** The outer loop of `fetch_github_ips`: the IPv4 entries of every
      required list, or the first invalid entry. */
  method CollectAll(data: Meta) returns (cidrs: set<string>, bad: Option<string>)
    requires forall i :: 0 <= i < 3 ==> RequiredKeys[i] in data
    ensures bad == FirstBad(Visited(data, 3))
    ensures bad.None? ==> cidrs == IPv4Entries(Visited(data, 3))
  {
    cidrs := {};
    var k := 0;
    while k < 3
      invariant 0 <= k <= 3
      invariant FirstBad(Visited(data, k)).None?
      invariant cidrs == IPv4Entries(Visited(data, k))
    {
      var entries := data[RequiredKeys[k]];
      cidrs, bad := CollectIPv4(entries, cidrs);
      FirstBadConcat(Visited(data, k), entries);
      if bad.Some? {
        VisitedGrows(data, k + 1, 3);
        FirstBadPrefix(Visited(data, k + 1), Visited(data, 3));
        return;
      }
      IPv4EntriesConcat(Visited(data, k), entries);
      k := k + 1;
    }
    bad := None;
  }

  /** The inner loop of `fetch_github_ips` over one list: skip IPv6 entries,
      abort on the first invalid one, add the others to the set. */
  method CollectIPv4(entries: seq<string>, cidrs0: set<string>) returns (cidrs: set<string>, bad: Option<string>)
    ensures bad == FirstBad(entries)
    ensures bad.None? ==> cidrs == cidrs0 + IPv4Entries(entries)
  {
    cidrs := cidrs0;
    var i := 0;
    while i < |entries|
      invariant 0 <= i <= |entries|
      invariant FirstBad(entries[..i]).None?
      invariant cidrs == cidrs0 + IPv4Entries(entries[..i])
    {
      var cidr := entries[i];
      assert entries[..i + 1] == entries[..i] + [cidr];
      if IsIPv6Entry(cidr) {
        SeenSkipped(entries[..i], cidr);
      } else if !ValidCidr(cidr) {
        assert FirstBad(entries[..i + 1]) == Some(cidr);
        FirstBadPrefix(entries[..i + 1], entries);
        return cidrs, Some(cidr);
      } else {
        SeenKept(entries[..i], cidr);
        cidrs := cidrs + {cidr};
      }
      i := i + 1;
    }
    assert entries[..i] == entries;
    bad := None;
  }

  lemma SeenSkipped(seen: seq<string>, cidr: string)
    requires IsIPv6Entry(cidr)
    ensures FirstBad(seen + [cidr]) == FirstBad(seen)
    ensures IPv4Entries(seen + [cidr]) == IPv4Entries(seen)
  {
    assert (seen + [cidr])[..|seen|] == seen;
  }

  lemma SeenKept(seen: seq<string>, cidr: string)
    requires !IsIPv6Entry(cidr) && ValidCidr(cidr)
    ensures FirstBad(seen + [cidr]) == FirstBad(seen)
    ensures IPv4Entries(seen + [cidr]) == IPv4Entries(seen) + {cidr}
  {
    assert (seen + [cidr])[..|seen|] == seen;
  }

  /** The first bad entry of a list is the first of its head, or else the
      first of its tail. */
  lemma FirstBadConcat(a: seq<string>, b: seq<string>)
    ensures FirstBad(a + b) == if FirstBad(a).Some? then FirstBad(a) else FirstBad(b)
  {
    if FirstBad(a).Some? {
      FirstBadPrefix(a, a + b);
    } else if FirstBad(b).Some? {
      var q :| 0 <= q < |b| && b[q] == FirstBad(b).value && IsBadEntry(b[q])
               && forall j :: 0 <= j < q ==> !IsBadEntry(b[j]);
      assert (a + b)[|a| + q] == b[q];
      FirstBadAt(a + b, |a| + q);
    }
  }

  /** A bad entry found in a prefix is the first bad entry of the whole. */
  lemma FirstBadPrefix(prefix: seq<string>, all: seq<string>)
    requires prefix <= all && FirstBad(prefix).Some?
    ensures FirstBad(all) == FirstBad(prefix)
  {
    var first := FirstBad(prefix).value;
    var p :| 0 <= p < |prefix| && prefix[p] == first && IsBadEntry(first)
             && forall j :: 0 <= j < p ==> !IsBadEntry(prefix[j]);
    FirstBadAt(all, p);
  }

  lemma IPv4EntriesConcat(a: seq<string>, b: seq<string>)
    ensures IPv4Entries(a + b) == IPv4Entries(a) + IPv4Entries(b)
  {
  }

  lemma {:induction false} VisitedGrows(data: Meta, k: nat, m: nat)
    requires k <= m <= 3 && forall j :: 0 <= j < 3 ==> RequiredKeys[j] in data
    ensures Visited(data, k) <= Visited(data, m)
    decreases m - k
  {
    if k < m {
      VisitedGrows(data, k, m - 1);
    }
  }

  /** The first bad entry is the one at the first bad position. */
  lemma {:induction false} FirstBadAt(s: seq<string>, p: nat)
    requires p < |s| && IsBadEntry(s[p]) && forall j :: 0 <= j < p ==> !IsBadEntry(s[j])
    ensures FirstBad(s) == Some(s[p])
  {
    var init := s[..|s| - 1];
    if p < |s| - 1 {
      FirstBadAt(init, p);
    }
  }

  /** An address lies in the network of some IPv4 entry of the document. */
  predicate EntryCovers(meta: Meta, a: Addr)
    requires forall i :: 0 <= i < 3 ==> RequiredKeys[i] in meta
  {
    exists e :: e in Visited(meta, 3) && !IsIPv6Entry(e) && ValidCidr(e) && Contains(ParseNetwork(e).value, a)
  }

  /** The networks written in a list of valid network texts. */
  function ParsedAll(strs: seq<string>): (nets: seq<Network>)
    requires forall i :: 0 <= i < |strs| ==> ValidCidr(strs[i])
    ensures |nets| == |strs|
  {
    seq(|strs|, i requires 0 <= i < |strs| => assert ValidCidr(strs[i]); ParseNetwork(strs[i]).value)
  }

  /** The text `fetch_github_ips` returns reads back as networks that cover
      exactly the addresses of the document's IPv4 entries, host bits
      cleared, in ascending order, pairwise disjoint, with no two halves of
      one supernet left. */
  lemma GithubCidrsSound(meta: Meta)
    requires GithubCidrs(Some(meta)).Ok?
    ensures MissingKey(meta).None?
    ensures forall i :: 0 <= i < |GithubCidrs(Some(meta)).value| ==> ValidCidr(GithubCidrs(Some(meta)).value[i])
    ensures var nets := ParsedAll(GithubCidrs(Some(meta)).value);
            && AllCanonical(nets) && Ascending(nets) && PairwiseDisjoint(nets) && NoMergeablePair(nets)
            && forall a :: Covers(nets, a) <==> EntryCovers(meta, a)
  {
    var entries := Visited(meta, 3);
    var cidrs := IPv4Entries(entries);
    var networks := NetworksOf(cidrs);
    var agg := Collapse.Collapse(networks);
    var out := GithubCidrs(Some(meta)).value;
    assert out == FormatAll(agg);
    forall i | 0 <= i < |agg|
      ensures ParseNetwork(out[i]) == Some(agg[i])
    {
      CollapseSound(networks);
      NetworkRoundTrip(agg[i]);
    }
    assert ParsedAll(out) == agg;
    CollapseSound(networks);
    forall a
      ensures CoversSet(networks, a) <==> EntryCovers(meta, a)
    {
      if CoversSet(networks, a) {
        var n :| n in networks && Contains(n, a);
        var c :| c in cidrs && ParseNetwork(c).value == n;
      }
      if EntryCovers(meta, a) {
        var e :| e in entries && !IsIPv6Entry(e) && ValidCidr(e) && Contains(ParseNetwork(e).value, a);
        assert ParseNetwork(e).value in networks;
      }
    }
  }

  // ---------------------------------------------------------------------
  // resolve_domain
  // ---------------------------------------------------------------------

  /** The distinct elements, each at its first place (`list(set(...))`). */
  function Dedup(xs: seq<string>): (r: seq<string>)
    ensures forall x :: x in r <==> x in xs
    ensures forall i, j :: 0 <= i < j < |r| ==> r[i] != r[j]
  {
    if xs == [] then []
    else
      var rest := Dedup(xs[..|xs| - 1]);
      var last := xs[|xs| - 1];
      assert forall x :: x in xs <==> x in xs[..|xs| - 1] || x == last;
      if last in rest then rest else rest + [last]
  }

  /** The first of a list that is not an IPv4 address. */
  function FirstNotIPv4(ips: seq<string>): (r: Option<string>)
    ensures r.None? <==> forall i :: 0 <= i < |ips| ==> ValidIPv4(ips[i])
    ensures r.Some? ==> r.value in ips && !ValidIPv4(r.value)
  {
    if ips == [] then None
    else if !ValidIPv4(ips[0]) then Some(ips[0])
    else
      assert forall i :: 1 <= i < |ips| ==> ips[i] == ips[1..][i - 1];
      FirstNotIPv4(ips[1..])
  }

  /** `resolve_domain`: the distinct addresses name resolution gives (`None`
      when it raised `gaierror`); none at all, or one that is not IPv4,
      aborts. */
  function ResolveDomain(dns: string -> Option<seq<string>>, domain: string): (r: Result<seq<string>, FirewallError>)
    ensures dns(domain).None? ==> r == Err(ResolveFailed(domain))
    ensures r.Ok? <==> dns(domain).Some? && dns(domain).value != []
                       && forall x :: x in dns(domain).value ==> ValidIPv4(x)
    ensures r.Ok? ==> && r.value != []
                      && (forall x :: x in r.value <==> x in dns(domain).value)
                      && (forall i, j :: 0 <= i < j < |r.value| ==> r.value[i] != r.value[j])
                      && (forall i :: 0 <= i < |r.value| ==> ValidIPv4(r.value[i]))
  {
    match dns(domain)
    case None => Err(ResolveFailed(domain))
    case Some(results) =>
      var ips := Dedup(results);
      if ips == [] then
        Err(NoIPv4Addresses(domain))
      else
        var bad := FirstNotIPv4(ips);
        if bad.Some? then Err(InvalidDnsAddress(domain, bad.value))
        else Ok(ips)
  }
}
