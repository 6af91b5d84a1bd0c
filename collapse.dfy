/**
 * CPython's `ipaddress.collapse_addresses` on IPv4 networks, as the firewall
 * initialiser calls it: the networks are merged pairwise into their supernets
 * (a work list popped from the end and a map keyed by supernet), then the
 * survivors are walked in ascending order and every network that lies inside
 * the previously kept one is dropped.
 */
module Collapse {
  import opened Results
  import opened Ipaddress

  /** Some network of `nets` holds address `a`. */
  predicate Covers(nets: seq<Network>, a: Addr) {
    exists i :: 0 <= i < |nets| && Contains(nets[i], a)
  }

  /** Some network stored in `m` holds address `a`. */
  predicate CoversMap(m: map<Network, Network>, a: Addr) {
    exists k :: k in m && Contains(m[k], a)
  }

  /** Some network of the set `s` holds address `a`. */
  predicate CoversSet(s: set<Network>, a: Addr) {
    exists v :: v in s && Contains(v, a)
  }

  predicate AllCanonical(nets: seq<Network>) {
    forall i :: 0 <= i < |nets| ==> Canonical(nets[i])
  }

  predicate SetCanonical(s: set<Network>) {
    forall n :: n in s ==> Canonical(n)
  }

  /** Every network in `m` is stored under its own supernet. */
  predicate KeyedBySupernet(m: map<Network, Network>) {
    forall k :: k in m ==> Canonical(m[k]) && Supernet(m[k]) == k
  }

  /** Each network ends before the next one starts. */
  predicate Ascending(nets: seq<Network>) {
    forall i, j :: 0 <= i < j < |nets| ==> nets[i].base + Size(nets[i].len) <= nets[j].base
  }

  /** No address lies in two of the networks. */
  predicate PairwiseDisjoint(nets: seq<Network>) {
    forall i, j, a :: 0 <= i < j < |nets| ==> !(Contains(nets[i], a) && Contains(nets[j], a))
  }

  /** No two of the networks are the halves of one supernet. */
  predicate NoMergeablePair(nets: seq<Network>)
    requires AllCanonical(nets)
  {
    forall i, j :: 0 <= i < j < |nets| ==> Supernet(nets[i]) != Supernet(nets[j])
  }

  /** `collapse_addresses` on a set of networks. The list CPython starts from
      is taken in ascending order. */
  function Collapse(nets: set<Network>): seq<Network>
    requires SetCanonical(nets)
  {
    var subnets := MergeSubnets(Sorted(nets), map[]);
    DropSubsumed(Sorted(subnets.Values), None)
  }

  /** The collapsed list covers exactly the addresses of the input, in
      ascending order, with no address twice and no pair left that could be
      merged into its supernet. */
  lemma CollapseSound(nets: set<Network>)
    requires SetCanonical(nets)
    ensures AllCanonical(Collapse(nets))
    ensures forall a :: Covers(Collapse(nets), a) <==> CoversSet(nets, a)
    ensures Ascending(Collapse(nets)) && PairwiseDisjoint(Collapse(nets))
    ensures NoMergeablePair(Collapse(nets))
  {
    var sorted := Sorted(nets);
    var subnets := MergeSubnets(sorted, map[]);
    var vals := Sorted(subnets.Values);
    var out := Collapse(nets);
    MergeSubnetsSound(sorted, map[]);
    MapAddrsEmpty();
    DropSubsumedSound(vals, None);
    SeqAddrsWithin(subnets.Values, out);
    SeqAddrsOfSet(nets, sorted);
    SeqAddrsOfSet(subnets.Values, vals);
    MapAddrsValues(subnets);
    forall a
      ensures Covers(out, a) <==> CoversSet(nets, a)
    {
      assert a in SeqAddrs(out) <==> a in SetAddrs(nets);
    }
    AscendingDisjoint(out);
    forall i, j | 0 <= i < j < |out|
      ensures Supernet(out[i]) != Supernet(out[j])
    {
      DistinctSupernets(subnets, out[i], out[j]);
    }
  }

  /** Python's `sorted` on a set of networks: ascending by `Before`. */
  function Sorted(s: set<Network>): (r: seq<Network>)
    ensures |r| == |s|
    ensures forall i :: 0 <= i < |r| ==> r[i] in s
    ensures forall n :: n in s ==> n in r
    ensures forall i, j :: 0 <= i < j < |r| ==> Before(r[i], r[j])
    decreases |s|
  {
    if s == {} then []
    else
      var m := LeastOf(s);
      var rest := Sorted(s - {m});
      assert forall p :: p in s - {m} ==> Before(m, p);
      [m] + rest
  }

  /** The least network of a non-empty set. */
  function LeastOf(s: set<Network>): (m: Network)
    requires s != {}
    ensures m in s && Least(m, s)
  {
    LeastExists(s);
    LeastUnique(s);
    var m :| m in s && Least(m, s);
    m
  }

  /** The merge phase of `_collapse_addresses_internal`: pop the last network,
      and if another network is already stored under the same supernet,
      replace both by that supernet and push it back on the work list. */
  function MergeSubnets(toMerge: seq<Network>, subnets: map<Network, Network>): map<Network, Network>
    requires AllCanonical(toMerge) && KeyedBySupernet(subnets)
    decreases 2 * |toMerge| + |subnets|
  {
    if toMerge == [] then subnets
    else
      var net := toMerge[|toMerge| - 1];
      var rest := toMerge[..|toMerge| - 1];
      Pop(toMerge);
      var supernet := Supernet(net);
      if supernet !in subnets then
        StoreKeyed(subnets, net);
        MergeSubnets(rest, subnets[supernet := net])
      else if subnets[supernet] != net then
        RemoveKeyed(subnets, supernet);
        AllCanonicalSplit(rest, supernet);
        MergeSubnets(rest + [supernet], subnets - {supernet})
      else
        MergeSubnets(rest, subnets)
  }

  /** Storing a network under its supernet, where nothing is stored yet. */
  lemma StoreKeyed(subnets: map<Network, Network>, net: Network)
    requires KeyedBySupernet(subnets) && Canonical(net) && Supernet(net) !in subnets
    ensures KeyedBySupernet(subnets[Supernet(net) := net])
    ensures |subnets[Supernet(net) := net]| == |subnets| + 1
  {
    assert subnets[Supernet(net) := net].Keys == subnets.Keys + {Supernet(net)};
  }

  /** Deleting a stored network. */
  lemma RemoveKeyed(subnets: map<Network, Network>, k: Network)
    requires KeyedBySupernet(subnets) && k in subnets
    ensures KeyedBySupernet(subnets - {k})
    ensures |subnets - {k}| == |subnets| - 1
  {
    assert (subnets - {k}).Keys == subnets.Keys - {k};
  }

  /** The merge phase keeps every network under its supernet and changes no
      covered address. */
  lemma {:induction false} MergeSubnetsSound(toMerge: seq<Network>, subnets: map<Network, Network>)
    requires AllCanonical(toMerge) && KeyedBySupernet(subnets)
    ensures KeyedBySupernet(MergeSubnets(toMerge, subnets))
    ensures MapAddrs(MergeSubnets(toMerge, subnets)) == SeqAddrs(toMerge) + MapAddrs(subnets)
    decreases 2 * |toMerge| + |subnets|
  {
    if toMerge != [] {
      var net := toMerge[|toMerge| - 1];
      var rest := toMerge[..|toMerge| - 1];
      Pop(toMerge);
      var supernet := Supernet(net);
      if supernet !in subnets {
        StoreKeyed(subnets, net);
        MergeSubnetsSound(rest, subnets[supernet := net]);
        StoreAddrs(rest, net, subnets, MergeSubnets(rest, subnets[supernet := net]));
      } else if subnets[supernet] != net {
        RemoveKeyed(subnets, supernet);
        AllCanonicalSplit(rest, supernet);
        MergeSubnetsSound(rest + [supernet], subnets - {supernet});
        MergeAddrs(rest, net, subnets, MergeSubnets(rest + [supernet], subnets - {supernet}));
      } else {
        MergeSubnetsSound(rest, subnets);
        MapAddrsRemove(subnets, supernet);
        DropBlock(MapAddrs(MergeSubnets(rest, subnets)), SeqAddrs(rest), Block(net),
                  MapAddrs(subnets - {supernet}));
      }
    }
  }

  /** Address bookkeeping when a popped network is stored. */
  lemma StoreAddrs(rest: seq<Network>, net: Network, subnets: map<Network, Network>,
                   result: map<Network, Network>)
    requires Canonical(net) && Supernet(net) !in subnets
    requires MapAddrs(result) == SeqAddrs(rest) + MapAddrs(subnets[Supernet(net) := net])
    ensures MapAddrs(result) == (SeqAddrs(rest) + Block(net)) + MapAddrs(subnets)
  {
    MapAddrsInsert(subnets, Supernet(net), net);
    MoveBlock(MapAddrs(result), SeqAddrs(rest), Block(net), MapAddrs(subnets),
              MapAddrs(subnets[Supernet(net) := net]));
  }

  /** Address bookkeeping when a popped network meets its other half. */
  lemma MergeAddrs(rest: seq<Network>, net: Network, subnets: map<Network, Network>,
                   result: map<Network, Network>)
    requires Canonical(net) && KeyedBySupernet(subnets)
    requires Supernet(net) in subnets && subnets[Supernet(net)] != net
    requires MapAddrs(result) == SeqAddrs(rest + [Supernet(net)]) + MapAddrs(subnets - {Supernet(net)})
    ensures MapAddrs(result) == (SeqAddrs(rest) + Block(net)) + MapAddrs(subnets)
  {
    var supernet := Supernet(net);
    var existing := subnets[supernet];
    MapAddrsRemove(subnets, supernet);
    SeqAddrsPush(rest, supernet);
    HalvesUnion(net, existing);
    MergeBlocks(MapAddrs(result), SeqAddrs(rest), Block(net), MapAddrs(subnets - {supernet}),
                Block(existing), Block(supernet), SeqAddrs(rest + [supernet]));
  }

  /** Taking the last network off a list. */
  lemma Pop(nets: seq<Network>)
    requires nets != []
    ensures AllCanonical(nets) ==> AllCanonical(nets[..|nets| - 1]) && Canonical(nets[|nets| - 1])
    ensures SeqAddrs(nets) == SeqAddrs(nets[..|nets| - 1]) + Block(nets[|nets| - 1])
  {
    var init, last := nets[..|nets| - 1], nets[|nets| - 1];
    assert nets == init + [last];
    AllCanonicalSplit(init, last);
    SeqAddrsPush(init, last);
  }

  lemma AllCanonicalSplit(nets: seq<Network>, n: Network)
    ensures AllCanonical(nets + [n]) <==> AllCanonical(nets) && Canonical(n)
  {
    if AllCanonical(nets) && Canonical(n) {
      forall i | 0 <= i < |nets| + 1
        ensures Canonical((nets + [n])[i])
      {
        if i < |nets| {
          assert (nets + [n])[i] == nets[i];
        }
      }
    }
    if AllCanonical(nets + [n]) {
      assert (nets + [n])[|nets|] == n;
      forall i | 0 <= i < |nets|
        ensures Canonical(nets[i])
      {
        assert (nets + [n])[i] == nets[i];
      }
    }
  }

  // Regrouping of address sets for the three branches of the merge loop.

  lemma MoveBlock<T>(all: iset<T>, rest: iset<T>, b: iset<T>, m: iset<T>, m': iset<T>)
    requires all == (rest + b) + m && m' == m + b
    ensures all == rest + m'
  {
  }

  lemma MergeBlocks<T>(all: iset<T>, rest: iset<T>, b: iset<T>, m: iset<T>, e: iset<T>,
                       sup: iset<T>, rest': iset<T>)
    requires all == (rest + b) + (m + e) && sup == b + e && rest' == rest + sup
    ensures all == rest' + m
  {
  }

  lemma DropBlock<T>(all: iset<T>, rest: iset<T>, b: iset<T>, m: iset<T>)
    requires all == (rest + b) + (m + b)
    ensures all == rest + (m + b)
  {
  }

  /** The second phase of `_collapse_addresses_internal`: walk the networks
      in ascending order and keep one only if it ends after the last one
      kept. */
  function DropSubsumed(nets: seq<Network>, last: Option<Network>): seq<Network>
  {
    if nets == [] then []
    else if last.Some? && Broadcast(last.value) >= Broadcast(nets[0]) then
      DropSubsumed(nets[1..], last)
    else
      [nets[0]] + DropSubsumed(nets[1..], Some(nets[0]))
  }

  /** The addresses of the last kept network, if any. */
  ghost function LastAddrs(last: Option<Network>): iset<Addr> {
    if last.Some? then Block(last.value) else iset{}
  }

  /** The walk keeps only networks from its input, in ascending order, after
      the last one kept so far, and together with that one it covers every
      address of its input. */
  lemma {:induction false} DropSubsumedSound(nets: seq<Network>, last: Option<Network>)
    requires AllCanonical(nets)
    requires forall i, j :: 0 <= i < j < |nets| ==> Before(nets[i], nets[j])
    requires last.Some? ==> Canonical(last.value)
    requires last.Some? ==> forall i :: 0 <= i < |nets| ==> Before(last.value, nets[i])
    ensures forall i :: 0 <= i < |DropSubsumed(nets, last)| ==> DropSubsumed(nets, last)[i] in nets
    ensures Ascending(DropSubsumed(nets, last))
    ensures last.Some? ==> StartsAfter(last.value, DropSubsumed(nets, last))
    ensures SeqAddrs(nets) <= SeqAddrs(DropSubsumed(nets, last)) + LastAddrs(last)
  {
    if nets != [] {
      var net, rest := nets[0], nets[1..];
      assert nets == [net] + rest;
      AllCanonicalSplitFront(net, rest);
      SeqAddrsCons(net, rest);
      if last.Some? && Broadcast(last.value) >= Broadcast(net) {
        DropSubsumedSound(rest, last);
        assert Within(net, last.value);
        assert Block(net) <= LastAddrs(last);
      } else {
        forall i | 0 <= i < |rest|
          ensures Before(net, rest[i])
        {
          assert rest[i] == nets[i + 1];
        }
        DropSubsumedSound(rest, Some(net));
        var tail := DropSubsumed(rest, Some(net));
        if last.Some? {
          NextIsDisjoint(last.value, net);
        }
        KeepFront(nets, last, net, tail);
      }
    }
  }

  /** Every network of `nets` starts after `n` ends. */
  predicate StartsAfter(n: Network, nets: seq<Network>) {
    forall i :: 0 <= i < |nets| ==> n.base + Size(n.len) <= nets[i].base
  }

  /** Putting a kept network in front of the rest of the walk. */
  lemma KeepFront(nets: seq<Network>, last: Option<Network>, net: Network, tail: seq<Network>)
    requires nets != [] && net == nets[0]
    requires forall i :: 0 <= i < |tail| ==> tail[i] in nets[1..]
    requires Ascending(tail) && StartsAfter(net, tail)
    requires SeqAddrs(nets[1..]) <= SeqAddrs(tail) + Block(net)
    requires SeqAddrs(nets) == Block(net) + SeqAddrs(nets[1..])
    requires last.Some? ==> last.value.base + Size(last.value.len) <= net.base
    ensures forall i :: 0 <= i < |[net] + tail| ==> ([net] + tail)[i] in nets
    ensures Ascending([net] + tail)
    ensures last.Some? ==> StartsAfter(last.value, [net] + tail)
    ensures SeqAddrs(nets) <= SeqAddrs([net] + tail) + LastAddrs(last)
  {
    var out := [net] + tail;
    SeqAddrsCons(net, tail);
    forall i | 0 <= i < |out|
      ensures out[i] in nets
    {
      if i > 0 {
        assert out[i] == tail[i - 1];
        assert tail[i - 1] in nets[1..];
      }
    }
    forall i, j | 0 <= i < j < |out|
      ensures out[i].base + Size(out[i].len) <= out[j].base
    {
      assert out[j] == tail[j - 1];
      if i > 0 {
        assert out[i] == tail[i - 1];
      }
    }
    if last.Some? {
      forall i | 0 <= i < |out|
        ensures last.value.base + Size(last.value.len) <= out[i].base
      {
        if i > 0 {
          assert out[i] == tail[i - 1];
        }
      }
    }
  }

  /** No network of `s` comes before `m`. */
  predicate Least(m: Network, s: set<Network>) {
    forall p :: p in s ==> !Before(p, m)
  }

  /** Python's ordering is total on distinct networks, so the least network
      of a set is unique. */
  lemma LeastUnique(s: set<Network>)
    ensures forall m, m' :: m in s && Least(m, s) && m' in s && Least(m', s) ==> m == m'
  {
  }

  /** Python's ordering of networks is total on distinct networks, so a
      non-empty finite set has a least element. */
  lemma {:induction false} LeastExists(s: set<Network>)
    requires s != {}
    ensures exists m :: m in s && Least(m, s)
    decreases |s|
  {
    var x :| x in s;
    if s != {x} {
      LeastExists(s - {x});
      var m :| m in s - {x} && forall p :: p in s - {x} ==> !Before(p, m);
      if Before(x, m) {
        forall p | p in s
          ensures !Before(p, x)
        {
          if p != x {
            assert !Before(p, m);
          }
        }
      } else {
        assert forall p :: p in s ==> !Before(p, m);
      }
    }
  }

  /** A network that comes after the last kept one and ends after it starts
      after it ends. */
  lemma NextIsDisjoint(last: Network, net: Network)
    requires Canonical(last) && Canonical(net)
    requires Before(last, net) && Broadcast(last) < Broadcast(net)
    ensures last.base + Size(last.len) <= net.base
  {
    if last.len <= net.len {
      Laminar(last, net);
    } else {
      Laminar(net, last);
    }
  }

  lemma AscendingDisjoint(nets: seq<Network>)
    requires Ascending(nets)
    ensures PairwiseDisjoint(nets)
  {
  }

  /** The addresses of one network. */
  ghost function Block(n: Network): iset<Addr> {
    iset a: Addr | Contains(n, a)
  }

  /** The addresses covered by a list of networks. */
  ghost function SeqAddrs(nets: seq<Network>): iset<Addr> {
    iset a: Addr | Covers(nets, a)
  }

  /** The addresses covered by the networks stored in a map. */
  ghost function MapAddrs(m: map<Network, Network>): iset<Addr> {
    iset a: Addr | CoversMap(m, a)
  }

  /** The two halves of a supernet hold exactly its addresses. */
  lemma HalvesUnion(x: Network, y: Network)
    requires Canonical(x) && Canonical(y) && x != y
    requires Supernet(x) == Supernet(y)
    ensures Block(Supernet(x)) == Block(x) + Block(y)
  {
    forall a: Addr
      ensures a in Block(Supernet(x)) <==> a in Block(x) + Block(y)
    {
      if Contains(Supernet(x), a) {
        HalvesCoverSupernet(x, y, a);
      }
    }
  }

  lemma SeqAddrsPush(nets: seq<Network>, n: Network)
    ensures SeqAddrs(nets + [n]) == SeqAddrs(nets) + Block(n)
  {
    var all := nets + [n];
    forall a: Addr
      ensures a in SeqAddrs(all) <==> a in SeqAddrs(nets) + Block(n)
    {
      if Covers(all, a) {
        var i :| 0 <= i < |all| && Contains(all[i], a);
        if i < |nets| {
          assert all[i] == nets[i];
        }
      }
      if Covers(nets, a) {
        var i :| 0 <= i < |nets| && Contains(nets[i], a);
        assert all[i] == nets[i];
      }
      if Contains(n, a) {
        assert all[|nets|] == n;
      }
    }
  }

  lemma MapAddrsInsert(m: map<Network, Network>, k: Network, v: Network)
    requires k !in m
    ensures MapAddrs(m[k := v]) == MapAddrs(m) + Block(v)
  {
    forall a: Addr
      ensures a in MapAddrs(m[k := v]) <==> a in MapAddrs(m) + Block(v)
    {
      if CoversMap(m[k := v], a) && !Contains(v, a) {
        var k' :| k' in m[k := v] && Contains(m[k := v][k'], a);
        assert k' != k && k' in m;
      }
      if CoversMap(m, a) {
        var k' :| k' in m && Contains(m[k'], a);
        assert k' in m[k := v] && m[k := v][k'] == m[k'];
      }
      if Contains(v, a) {
        assert k in m[k := v];
      }
    }
  }

  lemma MapAddrsRemove(m: map<Network, Network>, k: Network)
    requires k in m
    ensures MapAddrs(m) == MapAddrs(m - {k}) + Block(m[k])
  {
    forall a: Addr
      ensures a in MapAddrs(m) <==> a in MapAddrs(m - {k}) + Block(m[k])
    {
      if CoversMap(m, a) && !Contains(m[k], a) {
        var k' :| k' in m && Contains(m[k'], a);
        assert k' in m - {k};
      }
      if CoversMap(m - {k}, a) {
        var k' :| k' in m - {k} && Contains((m - {k})[k'], a);
        assert k' in m;
      }
    }
  }

  /** The addresses covered by a set of networks. */
  ghost function SetAddrs(s: set<Network>): iset<Addr> {
    iset a: Addr | CoversSet(s, a)
  }

  /** A list of networks taken from a set covers no more than the set. */
  lemma SeqAddrsWithin(s: set<Network>, nets: seq<Network>)
    requires forall i :: 0 <= i < |nets| ==> nets[i] in s
    ensures SeqAddrs(nets) <= SetAddrs(s)
  {
    forall a | a in SeqAddrs(nets)
      ensures a in SetAddrs(s)
    {
      var i :| 0 <= i < |nets| && Contains(nets[i], a);
      assert nets[i] in s;
    }
  }

  /** The networks stored in a map cover what its values cover. */
  lemma MapAddrsValues(m: map<Network, Network>)
    ensures MapAddrs(m) == SetAddrs(m.Values)
  {
    forall a: Addr
      ensures a in MapAddrs(m) <==> a in SetAddrs(m.Values)
    {
      if CoversMap(m, a) {
        var k :| k in m && Contains(m[k], a);
        assert m[k] in m.Values;
      }
      if a in SetAddrs(m.Values) {
        var v :| v in m.Values && Contains(v, a);
        var k :| k in m && m[k] == v;
      }
    }
  }

  /** Two different networks stored under their own supernets have different
      supernets, since a map holds one value per key. */
  lemma DistinctSupernets(m: map<Network, Network>, x: Network, y: Network)
    requires KeyedBySupernet(m)
    requires x in m.Values && y in m.Values && x != y
    ensures Canonical(x) && Canonical(y) && Supernet(x) != Supernet(y)
  {
    var kx :| kx in m && m[kx] == x;
    var ky :| ky in m && m[ky] == y;
  }

  lemma MapAddrsEmpty()
    ensures MapAddrs(map[]) == iset{}
  {
  }

  /** A list that holds exactly the networks of a set covers what the set
      covers. */
  lemma SeqAddrsOfSet(s: set<Network>, nets: seq<Network>)
    requires forall i :: 0 <= i < |nets| ==> nets[i] in s
    requires forall n :: n in s ==> n in nets
    ensures SeqAddrs(nets) == SetAddrs(s)
  {
    SeqAddrsWithin(s, nets);
    forall a | a in SetAddrs(s)
      ensures a in SeqAddrs(nets)
    {
      var v :| v in s && Contains(v, a);
      var i :| 0 <= i < |nets| && nets[i] == v;
    }
  }

  lemma AllCanonicalSplitFront(n: Network, nets: seq<Network>)
    ensures AllCanonical([n] + nets) <==> Canonical(n) && AllCanonical(nets)
  {
    var all := [n] + nets;
    assert all[0] == n;
    assert forall i :: 0 <= i < |nets| ==> all[i + 1] == nets[i];
  }

  lemma SeqAddrsCons(n: Network, nets: seq<Network>)
    ensures SeqAddrs([n] + nets) == Block(n) + SeqAddrs(nets)
  {
    var all := [n] + nets;
    forall a: Addr
      ensures a in SeqAddrs(all) <==> a in Block(n) + SeqAddrs(nets)
    {
      if Covers(all, a) {
        var i :| 0 <= i < |all| && Contains(all[i], a);
        if i > 0 {
          assert all[i] == nets[i - 1];
        }
      }
      if Covers(nets, a) {
        var i :| 0 <= i < |nets| && Contains(nets[i], a);
        assert all[i + 1] == nets[i];
      }
      if Contains(n, a) {
        assert all[0] == n;
      }
    }
  }
}
