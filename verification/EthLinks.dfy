/**
 Ethernet links of a cluster: loading a connection list into the link map, serialising
 the map back to a list, and the round trip between the two.
 */
module EthLinks {

  type Chip = nat

  /** One end of a link: a chip and one of its Ethernet channels. */
  datatype End = End(chip: Chip, chan: nat)

  type Pair = (End, End)
  type LinkMap = map<End, End>

  datatype Outcome = Loaded(links: LinkMap) | UnknownChip(end: End) | Conflict(end: End)

  /** Records that `a` is connected to `b`, unless `a` already has another partner. */
  function Attach(chips: set<Chip>, m: LinkMap, a: End, b: End): Outcome {
    if a.chip !in chips then UnknownChip(a)
    else if a in m then (if m[a] == b then Loaded(m) else Conflict(a))
    else Loaded(m[a := b])
  }

  function AddPair(chips: set<Chip>, m: LinkMap, p: Pair): Outcome {
    var first := Attach(chips, m, p.0, p.1);
    if !first.Loaded? then first else Attach(chips, first.links, p.1, p.0)
  }

  function LoadFrom(chips: set<Chip>, list: seq<Pair>, m: LinkMap): Outcome {
    if list == [] then Loaded(m)
    else
      var next := AddPair(chips, m, list[0]);
      if !next.Loaded? then next else LoadFrom(chips, list[1..], next.links)
  }

  /** Every link is seen from both of its ends. */
  ghost predicate Involution(m: LinkMap) {
    forall e :: e in m ==> m[e] in m && m[m[e]] == e
  }

  /** The list names `b` as a partner of `a`, in either order. */
  ghost predicate Names(list: seq<Pair>, a: End, b: End) {
    (a, b) in list || (b, a) in list
  }

  /** The map holds exactly what the list names. */
  ghost predicate Records(m: LinkMap, list: seq<Pair>) {
    && (forall a, b :: Names(list, a, b) ==> a in m && m[a] == b)
    && (forall a :: a in m ==> Names(list, a, m[a]))
  }

  lemma RecordsIsInvolution(m: LinkMap, list: seq<Pair>)
    requires Records(m, list)
    ensures Involution(m)
  {
    forall e | e in m
      ensures m[e] in m && m[m[e]] == e
    {
      assert Names(list, m[e], e);
    }
  }

  lemma AddPairRecords(chips: set<Chip>, m: LinkMap, seen: seq<Pair>, p: Pair)
    requires Records(m, seen) && AddPair(chips, m, p).Loaded?
    ensures Records(AddPair(chips, m, p).links, seen + [p])
    ensures p.0.chip in chips && p.1.chip in chips
  {
    var m' := AddPair(chips, m, p).links;
    forall a, b
      ensures Names(seen + [p], a, b) <==> Names(seen, a, b) || p == (a, b) || p == (b, a)
    {
    }
  }

  lemma {:induction false} LoadRecords(chips: set<Chip>, list: seq<Pair>, m: LinkMap, seen: seq<Pair>)
    requires Records(m, seen) && LoadFrom(chips, list, m).Loaded?
    ensures Records(LoadFrom(chips, list, m).links, seen + list)
    ensures forall p :: p in list ==> p.0.chip in chips && p.1.chip in chips
  {
    if list == [] {
      assert seen + list == seen;
    } else {
      AddPairRecords(chips, m, seen, list[0]);
      LoadRecords(chips, list[1..], AddPair(chips, m, list[0]).links, seen + [list[0]]);
      assert seen + [list[0]] + list[1..] == seen + list;
      assert list == [list[0]] + list[1..];
    }
  }

  /** The list names only known chips and at most one partner for each end. */
  ghost predicate Consistent(chips: set<Chip>, list: seq<Pair>) {
    && (forall p :: p in list ==> p.0.chip in chips && p.1.chip in chips)
    && (forall a, b, c :: Names(list, a, b) && Names(list, a, c) ==> b == c)
  }

  lemma {:induction false} ConsistentLoads(chips: set<Chip>, list: seq<Pair>, m: LinkMap, seen: seq<Pair>)
    requires Records(m, seen) && Consistent(chips, seen + list)
    ensures LoadFrom(chips, list, m).Loaded?
  {
    if list != [] {
      var p, all := list[0], seen + list;
      assert p in all;
      assert Names(all, p.0, p.1) && Names(all, p.1, p.0);
      forall a | a in m
        ensures Names(all, a, m[a])
      {
        assert Names(seen, a, m[a]);
      }
      AddPairRecords(chips, m, seen, p);
      assert seen + [p] + list[1..] == all;
      ConsistentLoads(chips, list[1..], AddPair(chips, m, p).links, seen + [p]);
    }
  }

  /**
   A connection list is accepted exactly when it names known chips and never two partners
   for one end, and then loads to the symmetric partial involution it describes.
   */
  lemma LoadAcceptsExactlyConsistentLists(chips: set<Chip>, list: seq<Pair>)
    ensures LoadFrom(chips, list, map[]).Loaded? <==> Consistent(chips, list)
    ensures LoadFrom(chips, list, map[]).Loaded? ==>
              && Records(LoadFrom(chips, list, map[]).links, list)
              && Involution(LoadFrom(chips, list, map[]).links)
  {
    assert Records(map[], []);
    assert [] + list == list;
    if LoadFrom(chips, list, map[]).Loaded? {
      LoadRecords(chips, list, map[], []);
      RecordsIsInvolution(LoadFrom(chips, list, map[]).links, list);
      var m := LoadFrom(chips, list, map[]).links;
      assert forall a, b :: Names(list, a, b) ==> m[a] == b;
    }
    if Consistent(chips, list) {
      ConsistentLoads(chips, list, map[], []);
    }
  }

  /** Lexicographic order on link ends. */
  predicate AtMost(a: End, b: End) {
    a.chip < b.chip || (a.chip == b.chip && a.chan <= b.chan)
  }

  /** One entry per link, from its smaller end, in ascending order. */
  ghost predicate Serializes(m: LinkMap, list: seq<Pair>) {
    && (forall i :: 0 <= i < |list| ==> list[i].0 in m && list[i].1 == m[list[i].0] && AtMost(list[i].0, list[i].1))
    && (forall i, j :: 0 <= i < j < |list| ==> list[i].0 != list[j].0 && AtMost(list[i].0, list[j].0))
    && (forall e :: e in m && AtMost(e, m[e]) ==> (e, m[e]) in list)
  }

  /** The entry is the link of `e`, written from either side. */
  ghost predicate IsLinkOf(m: LinkMap, e: End, p: Pair)
    requires e in m
  {
    p == (e, m[e]) || p == (m[e], e)
  }

  /** Each undirected link, self links included, appears exactly once. */
  lemma EachLinkOnce(m: LinkMap, list: seq<Pair>, e: End)
    requires Involution(m) && Serializes(m, list) && e in m
    ensures exists i :: 0 <= i < |list| && IsLinkOf(m, e, list[i])
    ensures forall i, j :: 0 <= i < j < |list| ==> !IsLinkOf(m, e, list[i]) || !IsLinkOf(m, e, list[j])
  {
    if AtMost(e, m[e]) {
      assert (e, m[e]) in list && IsLinkOf(m, e, (e, m[e]));
    } else {
      assert (m[e], m[m[e]]) in list && IsLinkOf(m, e, (m[e], e));
    }
  }

  lemma SerializationNames(m: LinkMap, list: seq<Pair>, a: End, b: End)
    requires Involution(m) && Serializes(m, list)
    ensures Names(list, a, b) <==> a in m && m[a] == b
  {
    if a in m && m[a] == b {
      if AtMost(a, b) {
        assert (a, m[a]) in list;
      } else {
        assert (b, m[b]) in list;
      }
    }
  }

  /** Serialising a link map and loading the list gives the same map back. */
  lemma LoadOfSerialization(chips: set<Chip>, m: LinkMap, list: seq<Pair>)
    requires Involution(m) && Serializes(m, list) && forall e :: e in m ==> e.chip in chips
    ensures LoadFrom(chips, list, map[]) == Loaded(m)
  {
    forall a, b
      ensures Names(list, a, b) <==> a in m && m[a] == b
    {
      SerializationNames(m, list, a, b);
    }
    forall p | p in list
      ensures p.0.chip in chips && p.1.chip in chips
    {
      assert Names(list, p.0, p.1) && Names(list, p.1, p.0);
    }
    LoadAcceptsExactlyConsistentLists(chips, list);
    var m' := LoadFrom(chips, list, map[]).links;
    assert forall a :: a in m' ==> Names(list, a, m'[a]);
    assert forall a :: a in m ==> Names(list, a, m[a]);
    assert m' == m;
  }

  lemma {:induction false} LeastEndExists(ends: set<End>) returns (least: End)
    requires ends != {}
    ensures least in ends && forall e :: e in ends ==> AtMost(least, e)
  {
    var e :| e in ends;
    if ends == {e} {
      least := e;
    } else {
      var l := LeastEndExists(ends - {e});
      least := if AtMost(e, l) then e else l;
      assert forall f :: f in ends ==> f == e || f in ends - {e};
    }
  }

  /** An end is skipped because a smaller one already led to it. */
  ghost predicate Skipped(list: seq<Pair>, e: End) {
    exists p :: p in list && p.1 == e && p.0 != e && AtMost(p.0, e)
  }

  /** What the walk has written once the ends outside `todo` are behind it. */
  ghost predicate Walked(m: LinkMap, todo: set<End>, list: seq<Pair>) {
    && (forall i :: 0 <= i < |list| ==> list[i].0 in m && list[i].0 !in todo && list[i].1 == m[list[i].0])
    && (forall i, j :: 0 <= i < j < |list| ==> list[i].0 != list[j].0 && AtMost(list[i].0, list[j].0))
    && (forall i, j :: 0 <= i < j < |list| ==> list[i].1 != list[j].0)
    && (forall e :: e in m && e !in todo ==> (e, m[e]) in list || Skipped(list, e))
  }

  lemma WalkEmits(m: LinkMap, todo: set<End>, list: seq<Pair>, src: End)
    requires todo <= m.Keys && src in todo && Walked(m, todo, list)
    requires forall e, f :: e in m && e !in todo && f in todo ==> AtMost(e, f)
    requires forall p :: p in list ==> p.1 != src
    ensures Walked(m, todo - {src}, list + [(src, m[src])])
  {
    var list' := list + [(src, m[src])];
    assert list'[|list|] == (src, m[src]);
    forall e | e in m && e !in todo - {src}
      ensures (e, m[e]) in list' || Skipped(list', e)
    {
      if e != src && (e, m[e]) !in list {
        var p :| p in list && p.1 == e && p.0 != e && AtMost(p.0, e);
        assert p in list';
      }
    }
  }

  lemma WalkSkips(m: LinkMap, todo: set<End>, list: seq<Pair>, src: End, p: Pair)
    requires todo <= m.Keys && src in todo && Walked(m, todo, list) && p in list && p.1 == src
    requires forall e, f :: e in m && e !in todo && f in todo ==> AtMost(e, f)
    ensures Walked(m, todo - {src}, list)
  {
    assert Skipped(list, src);
  }

  lemma FullWalkSerializes(m: LinkMap, list: seq<Pair>)
    requires Walked(m, {}, list) && Involution(m)
    ensures Serializes(m, list)
  {
    forall i | 0 <= i < |list|
      ensures AtMost(list[i].0, list[i].1)
    {
      assert m[list[i].1] == list[i].0;
    }
  }

  /** Walks the connections in order and skips an end already written as a destination. */
  method Serialize(m: LinkMap) returns (list: seq<Pair>)
    ensures forall p :: p in list ==> p.0 in m && p.1 == m[p.0]
    ensures forall e :: e in m ==> (e, m[e]) in list || Skipped(list, e)
    ensures Involution(m) ==> Serializes(m, list)
  {
    list := [];
    var serialized: set<End> := {};
    var todo := m.Keys;
    while todo != {}
      invariant todo <= m.Keys
      invariant forall e, f :: e in m && e !in todo && f in todo ==> AtMost(e, f)
      invariant serialized == set p | p in list :: p.1
      invariant Walked(m, todo, list)
    {
      ghost var least := LeastEndExists(todo);
      var src :| src in todo && forall e :: e in todo ==> AtMost(src, e);
      if src !in serialized {
        WalkEmits(m, todo, list, src);
        serialized := serialized + {m[src]};
        list := list + [(src, m[src])];
      } else {
        ghost var p :| p in list && p.1 == src;
        WalkSkips(m, todo, list, src, p);
      }
      todo := todo - {src};
    }
    if Involution(m) {
      FullWalkSerializes(m, list);
    }
  }

  /** Later entries replace earlier ones. */
  function PutAll<K, V>(m: map<K, V>, list: seq<(K, V)>): map<K, V> {
    if list == [] then m
    else
      var last := list[|list| - 1];
      PutAll(m, list[..|list| - 1])[last.0 := last.1]
  }

  /** Keys that are not listed keep what they had. */
  lemma {:induction false} UnlistedStay<K, V>(m: map<K, V>, list: seq<(K, V)>, k: K)
    requires forall i :: 0 <= i < |list| ==> list[i].0 != k
    ensures k in PutAll(m, list) <==> k in m
    ensures k in m ==> PutAll(m, list)[k] == m[k]
  {
    if list != [] {
      UnlistedStay(m, list[..|list| - 1], k);
    }
  }

  /** The last entry for a key wins. */
  lemma {:induction false} LastPutWins<K, V>(m: map<K, V>, list: seq<(K, V)>, i: nat)
    requires i < |list| && forall j :: i < j < |list| ==> list[j].0 != list[i].0
    ensures list[i].0 in PutAll(m, list) && PutAll(m, list)[list[i].0] == list[i].1
  {
    if i < |list| - 1 {
      LastPutWins(m, list[..|list| - 1], i);
    }
  }

  /** Links, and which Ethernet channels of each chip are in use. */
  class LinkTable {
    const chips: set<Chip>
    const numChannels: map<Chip, nat>
    var links: LinkMap
    var remote: map<End, (nat, nat)>
    var active: set<End>
    var idle: set<End>

    ghost predicate Valid()
      reads this
    {
      && Involution(links)
      && active == links.Keys + remote.Keys
      && idle == AllChannels() - active
    }

    /** Every channel the unharvested part of every chip has. */
    function AllChannels(): set<End> {
      set c, ch | c in chips && c in numChannels && 0 <= ch < numChannels[c] :: End(c, ch)
    }

    constructor (chips: set<Chip>, numChannels: map<Chip, nat>)
      ensures Valid() && links == map[] && remote == map[] && this.chips == chips && this.numChannels == numChannels
      ensures forall c, ch :: End(c, ch) in idle <==> c in chips && c in numChannels && ch < numChannels[c]
    {
      this.chips, this.numChannels := chips, numChannels;
      links, remote, active := map[], map[], {};
      new;
      idle := AllChannels();
    }

    /** Stops at the first pair that names an unknown chip or contradicts an earlier one. */
    method LoadConnections(list: seq<Pair>) returns (outcome: Outcome)
      requires Valid() && links == map[]
      modifies this
      ensures outcome == LoadFrom(chips, list, map[])
      ensures remote == old(remote)
      ensures outcome.Loaded? ==> Valid() && links == outcome.links
      ensures outcome.Loaded? ==>
                && (forall e :: e in active <==> e in links || e in remote)
                && (forall e :: e in idle <==>
                      && e.chip in chips && e.chip in numChannels && e.chan < numChannels[e.chip]
                      && e !in links && e !in remote)
    {
      LoadAcceptsExactlyConsistentLists(chips, list);
      for i := 0 to |list|
        invariant LoadFrom(chips, list, map[]) == LoadFrom(chips, list[i..], links)
        invariant active == links.Keys + remote.Keys && idle == AllChannels() - active
        invariant remote == old(remote)
      {
        var (a, b) := list[i];
        assert list[i..][1..] == list[i + 1..];
        if a.chip !in chips {
          return UnknownChip(a);
        }
        if a in links && links[a] != b {
          return Conflict(a);
        }
        links := if a in links then links else links[a := b];
        if b.chip !in chips {
          return UnknownChip(b);
        }
        if b in links && links[b] != a {
          return Conflict(b);
        }
        links := if b in links then links else links[b := a];
        active, idle := active + {a, b}, idle - {a, b};
      }
      outcome := Loaded(links);
    }

    /** Links to devices outside the cluster also occupy their local channel. */
    method LoadRemoteConnections(list: seq<(End, (nat, nat))>)
      requires Valid()
      modifies this`remote, this`active, this`idle
      ensures Valid() && remote == PutAll(old(remote), list)
      ensures forall e :: e in active <==> e in links || e in remote
      ensures forall e :: e in idle <==>
                && e.chip in chips && e.chip in numChannels && e.chan < numChannels[e.chip]
                && e !in links && e !in remote
    {
      for i := 0 to |list|
        invariant Valid() && remote == PutAll(old(remote), list[..i])
      {
        var (e, peer) := list[i];
        remote := remote[e := peer];
        active, idle := active + {e}, idle - {e};
        assert list[..i + 1] == list[..i] + [list[i]];
      }
      assert list[..|list|] == list;
    }
  }
}
