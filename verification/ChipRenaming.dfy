/** Renumbering chips: ordering them gateways first and carrying per-chip data along. */
module ChipRenaming {
  import opened EthLinks

  type Renaming = map<Chip, Chip>

  ghost predicate Injective(ren: Renaming) {
    forall a, b :: a in ren && b in ren && ren[a] == ren[b] ==> a == b
  }

  /** `dst` holds the data of `src` under the new names, and nothing else. */
  ghost predicate Renamed<T(!new)>(dst: map<Chip, T>, src: map<Chip, T>, ren: Renaming) {
    && (forall k :: k in src && k in ren ==> ren[k] in dst && dst[ren[k]] == src[k])
    && (forall n :: n in dst ==> exists k :: k in src && k in ren && ren[k] == n)
  }

  /** The collection restricted to the given chips. */
  function Filter<T>(m: map<Chip, T>, chips: set<Chip>): map<Chip, T> {
    map k | k in m && k in chips :: m[k]
  }

  method RemapKeys<T(!new)>(src: map<Chip, T>, ren: Renaming) returns (dst: map<Chip, T>)
    requires Injective(ren)
    ensures Renamed(dst, src, ren)
  {
    dst := map[];
    var todo := src.Keys;
    while todo != {}
      invariant todo <= src.Keys
      invariant forall k :: k in src && k !in todo && k in ren ==> ren[k] in dst && dst[ren[k]] == src[k]
      invariant forall n :: n in dst ==> exists k :: k in src && k !in todo && k in ren && ren[k] == n
    {
      var k :| k in todo;
      todo := todo - {k};
      if k in ren && ren[k] !in dst {
        dst := dst[ren[k] := src[k]];
      }
    }
  }

  /** Every gateway comes before every other chip, and every chip once. */
  ghost predicate LocalFirst(order: seq<Chip>, chips: set<Chip>, gateways: set<Chip>) {
    && (forall i :: 0 <= i < |order| ==> order[i] in chips)
    && (forall c :: c in chips ==> c in order)
    && (forall i, j :: 0 <= i < j < |order| ==> order[i] != order[j])
    && (forall i, j :: 0 <= i < |order| && 0 <= j < |order| && order[i] in gateways && order[j] !in gateways ==> i < j)
  }

  method Collect(chips: set<Chip>) returns (order: seq<Chip>)
    ensures forall c :: c in order <==> c in chips
    ensures forall i, j :: 0 <= i < j < |order| ==> order[i] != order[j]
    ensures |order| == |chips|
  {
    order := [];
    var todo := chips;
    while todo != {}
      invariant todo <= chips
      invariant forall c :: c in order <==> c in chips && c !in todo
      invariant forall i, j :: 0 <= i < j < |order| ==> order[i] != order[j]
      invariant |order| + |todo| == |chips|
    {
      var c :| c in todo;
      order := order + [c];
      todo := todo - {c};
    }
  }

  method ChipsLocalFirst(chips: set<Chip>, gateways: set<Chip>) returns (order: seq<Chip>)
    ensures LocalFirst(order, chips, gateways) && |order| == |chips|
  {
    var locals := Collect(chips * gateways);
    var others := Collect(chips - gateways);
    order := locals + others;
    assert chips == chips * gateways + (chips - gateways);
    assert |chips| == |chips * gateways| + |chips - gateways|;
  }

  /** Chips numbered 0..n-1 with gateways first. */
  ghost predicate NumbersLocalFirst(ren: Renaming, chips: set<Chip>, gateways: set<Chip>) {
    && ren.Keys == chips && Injective(ren)
    && (forall n: nat :: n in ren.Values <==> n < |chips|)
    && (forall a, b :: a in chips && b in chips && a in gateways && b !in gateways ==> ren[a] < ren[b])
  }

  lemma NumberingIsLocalFirst(ren: Renaming, order: seq<Chip>, chips: set<Chip>, gateways: set<Chip>)
    requires LocalFirst(order, chips, gateways) && |order| == |chips|
    requires ren.Keys == (set j | 0 <= j < |order| :: order[j])
    requires forall j :: 0 <= j < |order| ==> ren[order[j]] == j
    ensures NumbersLocalFirst(ren, chips, gateways)
  {
    forall c | c in chips
      ensures c in ren && ren[c] < |order| && order[ren[c]] == c
    {
      var j :| 0 <= j < |order| && order[j] == c;
    }
    assert ren.Keys == chips;
    forall n: nat
      ensures n in ren.Values <==> n < |chips|
    {
      if n < |chips| {
        assert order[n] in ren && ren[order[n]] == n;
      }
    }
  }

  method Number(chips: set<Chip>, gateways: set<Chip>) returns (ren: Renaming)
    ensures NumbersLocalFirst(ren, chips, gateways)
  {
    var order := ChipsLocalFirst(chips, gateways);
    ren := map[];
    for i := 0 to |order|
      invariant ren.Keys == set j | 0 <= j < i :: order[j]
      invariant forall j :: 0 <= j < i ==> ren[order[j]] == j
    {
      ren := ren[order[i] := i];
    }
    NumberingIsLocalFirst(ren, order, chips, gateways);
  }
}
