/** The disjoint set used to track connected components of chips. */
module DisjointSet {

  type Id = nat
  type Parents = map<Id, Id>

  /** The parent of k does not exceed it and has an entry of its own. */
  ghost predicate Linked(p: Parents, k: Id)
    requires k in p
  {
    p[k] <= k && p[k] in p
  }

  /** Parents never exceed children, and following parents never leaves the map. */
  ghost predicate WellFormed(p: Parents) {
    forall k {:trigger Linked(p, k)} :: k in p ==> Linked(p, k)
  }

  /** Where following parents ends. */
  ghost function Root(p: Parents, x: Id): (r: Id)
    requires WellFormed(p) && x in p
    ensures r in p && p[r] == r && r <= x
    decreases x
  {
    assert Linked(p, x);
    if p[x] == x then x else Root(p, p[x])
  }

  /** `parent[x]` on a missing key inserts 0, and the walk then inserts 0's own entry. */
  ghost function Touched(p: Parents, x: Id): (q: Parents)
    requires WellFormed(p)
    ensures WellFormed(q) && x in q
    ensures forall k :: k in p ==> k in q && q[k] == p[k]
    ensures x !in p ==> q[x] == 0 && q.Keys == p.Keys + {x, 0}
    ensures x in p ==> q == p
  {
    assert 0 in p ==> Linked(p, 0);
    var q := if x in p then p else p[x := 0][0 := 0];
    assert WellFormed(q) by {
      forall k | k in q
        ensures Linked(q, k)
      {
        assert k in p ==> Linked(p, k);
      }
    }
    q
  }

  /** Adding entries does not move a root. */
  lemma {:induction false} RootOfExtension(p: Parents, q: Parents, x: Id)
    requires WellFormed(p) && WellFormed(q) && x in p
    requires forall k :: k in p ==> k in q && q[k] == p[k]
    ensures Root(q, x) == Root(p, x)
    decreases x
  {
    assert Linked(p, x) && Linked(q, x);
    if p[x] != x {
      RootOfExtension(p, q, p[x]);
    }
  }

  function Least(a: Id, b: Id): Id {
    if b < a then b else a
  }

  ghost predicate IsRoot(p: Parents, r: Id) {
    r in p && p[r] == r
  }

  /** Pointing two roots at the smaller one. */
  ghost function Joined(p: Parents, r1: Id, r2: Id): (q: Parents)
    requires WellFormed(p) && IsRoot(p, r1) && IsRoot(p, r2)
    ensures WellFormed(q) && q.Keys == p.Keys
    ensures IsRoot(q, Least(r1, r2)) && q[r1] == q[r2] == Least(r1, r2)
    ensures forall k :: k in p && k != r1 && k != r2 ==> q[k] == p[k]
  {
    var q := p[r2 := Least(r1, r2)][r1 := Least(r1, r2)];
    assert WellFormed(q) by {
      forall k | k in q
        ensures Linked(q, k)
      {
        assert Linked(p, k);
      }
    }
    q
  }

  /** Exactly the two joined classes move, both to the smaller root. */
  lemma {:induction false} RootOfJoined(p: Parents, r1: Id, r2: Id, q: Parents, x: Id)
    requires WellFormed(p) && IsRoot(p, r1) && IsRoot(p, r2) && x in p && q == Joined(p, r1, r2)
    ensures Root(q, x) == if Root(p, x) == r1 || Root(p, x) == r2 then Least(r1, r2) else Root(p, x)
    decreases x
  {
    assert Linked(p, x) && Linked(q, x);
    if p[x] != x {
      RootOfJoined(p, r1, r2, q, p[x]);
    } else if x == r1 || x == r2 {
      assert Root(q, Least(r1, r2)) == Least(r1, r2);
    }
  }

  ghost function Merged(p: Parents, a: Id, b: Id): (q: Parents)
    requires WellFormed(p)
    ensures WellFormed(q)
  {
    var t := Touched(Touched(p, a), b);
    Joined(t, Root(t, a), Root(t, b))
  }

  class DisjointSet {
    var parent: Parents

    ghost predicate Valid()
      reads this
    {
      WellFormed(parent)
    }

    constructor ()
      ensures Valid() && parent == map[]
    {
      parent := map[];
    }

    method AddItem(item: Id)
      requires Valid() && (item in parent ==> parent[item] == item)
      modifies this
      ensures Valid() && parent == old(parent)[item := item]
    {
      parent := parent[item := item];
      forall k | k in parent
        ensures Linked(parent, k)
      {
        assert k in old(parent) ==> Linked(old(parent), k);
      }
    }

    /** Reading `parent[item]` default-inserts a missing key. */
    method Lookup(item: Id) returns (p: Id)
      modifies this
      ensures parent == (if item in old(parent) then old(parent) else old(parent)[item := 0])
      ensures p == parent[item]
    {
      if item !in parent {
        parent := parent[item := 0];
      }
      p := parent[item];
    }

    /** Terminates because parents never exceed children. */
    method GetSet(item: Id) returns (r: Id)
      requires Valid()
      modifies this
      ensures Valid() && parent == Touched(old(parent), item)
      ensures r == Root(parent, item)
    {
      var x := item;
      var p := Lookup(x);
      ghost var full := Touched(old(parent), item);
      while p != x
        invariant x in full && Root(full, x) == Root(full, item) && p == full[x]
        invariant parent == full || (0 !in parent && p == 0 != x && full == parent[0 := 0])
        decreases x
      {
        assert Linked(full, x);
        x := p;
        p := Lookup(x);
      }
      r := x;
    }

    method Merge(item1: Id, item2: Id)
      requires Valid()
      modifies this
      ensures Valid() && parent == Merged(old(parent), item1, item2)
    {
      var set1 := GetSet(item1);
      var set2 := GetSet(item2);
      RootOfExtension(Touched(old(parent), item1), parent, item1);
      ghost var t := parent;
      parent := parent[set2 := Least(set1, set2)];
      parent := parent[set1 := Least(set1, set2)];
      assert parent == Joined(t, set1, set2);
    }
  }
}
