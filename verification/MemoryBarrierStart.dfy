/**
 Exactly which starts leave the flags at rest between barriers.  A flag that already reads
 RESET lets the driver's first barrier return on the old value: the run below delivers
 everything but the writes to that core.
 */
module MemoryBarrierStart {
  import opened Sequences
  import opened MemoryBarrier
  import opened MemoryBarrierQuiet
  import opened MemoryBarrierTheorems

  ghost predicate Leads(run: seq<State>, acts: seq<Action>, s: State, t: State) {
    IsRun(run, acts) && run[0] == s && run[|acts|] == t
  }

  /** Some run leads from s to t. */
  ghost predicate Reaches(s: State, t: State) {
    exists run: seq<State>, acts: seq<Action> :: Leads(run, acts, s, t)
  }

  lemma ReachesSelf(s: State)
    ensures Reaches(s, s)
  {
    assert Leads([s], [], s, s);
  }

  lemma ReachesStep(s: State, t: State, a: Action)
    requires Reaches(s, t) && Enabled(t, a)
    ensures Reaches(s, Apply(t, a))
  {
    var run: seq<State>, acts: seq<Action> :| Leads(run, acts, s, t);
    var run', acts' := run + [Apply(t, a)], acts + [a];
    forall i | 0 <= i < |acts'|
      ensures Enabled(run'[i], acts'[i]) && run'[i + 1] == Apply(run'[i], acts'[i])
    {
      assert i < |acts| ==> Enabled(run[i], acts[i]) && run[i + 1] == Apply(run[i], acts[i]);
    }
    assert Leads(run', acts', s, Apply(t, a));
  }

  /** The last write on its way to a core is the driver's RESET, the others are data. */
  ghost predicate Loaded(n: Net, h: Host, c: Core) {
    var ws := Flight(n, Link(h, c));
    ws != [] && ws[|ws| - 1] == Flag(RESET) && forall k :: 0 <= k < |ws| - 1 ==> ws[k].Data?
  }

  ghost predicate OnlyData(n: Net, l: Link) {
    forall k :: 0 <= k < |Flight(n, l)| ==> Flight(n, l)[k].Data?
  }

  /** The first i RESETs are posted, nothing has been delivered. */
  ghost predicate Posted(s0: State, s: State, i: nat)
    requires s0.holder.Barrier?
  {
    var b := s0.holder;
    && i <= |b.cores| && !s.timedOut && s.holder == b.(pc := Writing(RESET, i)) && s.net.flag == s0.net.flag
    && (forall j :: 0 <= j < i ==> Loaded(s.net, b.host, b.cores[j]))
    && (forall j :: i <= j < |b.cores| ==> OnlyData(s.net, Link(b.host, b.cores[j])))
  }

  lemma InitIsPosted(s: State)
    requires Init(s)
    ensures Posted(s, s, 0)
  {
    forall j | 0 <= j < |s.holder.cores|
      ensures OnlyData(s.net, Link(s.holder.host, s.holder.cores[j]))
    {
      var ws := Flight(s.net, Link(s.holder.host, s.holder.cores[j]));
      assert forall k :: 0 <= k < |ws| ==> ws[k] in ws;
    }
  }

  /** A RESET posted on one link. */
  lemma PostLoads(n: Net, h: Host, c: Core)
    requires OnlyData(n, Link(h, c))
    ensures Loaded(Post(n, Link(h, c), Flag(RESET)), h, c)
  {
    PostEffect(n, Link(h, c), Flag(RESET));
  }

  lemma PostSparesOthers(n: Net, h: Host, c: Core, d: Core)
    requires c != d
    ensures Loaded(n, h, d) ==> Loaded(Post(n, Link(h, c), Flag(RESET)), h, d)
    ensures OnlyData(n, Link(h, d)) ==> OnlyData(Post(n, Link(h, c), Flag(RESET)), Link(h, d))
  {
    PostEffect(n, Link(h, c), Flag(RESET));
  }

  lemma PostOne(s0: State, t: State, i: nat)
    requires s0.holder.Barrier? && Distinct(s0.holder.cores) && i < |s0.holder.cores| && Posted(s0, t, i)
    ensures Posted(s0, Apply(t, WriteFlag), i + 1)
  {
    var b, n := s0.holder, t.net;
    var n' := Post(n, Link(b.host, b.cores[i]), Flag(RESET));
    PostLoads(n, b.host, b.cores[i]);
    forall j | 0 <= j < |b.cores| && j != i
      ensures j < i ==> Loaded(n', b.host, b.cores[j])
      ensures j > i ==> OnlyData(n', Link(b.host, b.cores[j]))
    {
      PostSparesOthers(n, b.host, b.cores[i], b.cores[j]);
    }
  }

  lemma {:induction false} PostAll(s0: State, i: nat) returns (s: State)
    requires Init(s0) && Distinct(s0.holder.cores) && i <= |s0.holder.cores|
    ensures Reaches(s0, s) && Posted(s0, s, i)
  {
    if i == 0 {
      s := s0;
      ReachesSelf(s0);
      InitIsPosted(s0);
    } else {
      var t := PostAll(s0, i - 1);
      s := Apply(t, WriteFlag);
      ReachesStep(s0, t, WriteFlag);
      PostOne(s0, t, i - 1);
    }
  }

  /** Nothing is on its way to the first i cores except k, and they show RESET. */
  ghost predicate Drained(s0: State, s: State, k: nat, i: nat)
    requires s0.holder.Barrier? && k < |s0.holder.cores|
  {
    var b := s0.holder;
    && i <= |b.cores| && !s.timedOut && s.holder == b.(pc := Polling(RESET, 0, {}))
    && s.net.flag.Keys == s0.net.flag.Keys
    && (forall j :: 0 <= j < i ==> b.cores[j] in s.net.flag && s.net.flag[b.cores[j]] == RESET)
    && (forall j :: (i <= j < |b.cores|) || j == k ==> Loaded(s.net, b.host, b.cores[j]))
    && b.cores[k] in s.net.flag && s.net.flag[b.cores[k]] == RESET
  }

  /** The last one is the RESET. */
  lemma LastDeliver(s0: State, t: State, k: nat, i: nat)
    requires s0.holder.Barrier? && Distinct(s0.holder.cores) && k < |s0.holder.cores| && i < |s0.holder.cores| && i != k
    requires Drained(s0, t, k, i) && |Flight(t.net, Link(s0.holder.host, s0.holder.cores[i]))| == 1
    requires s0.holder.cores[i] in t.net.flag
    ensures Drained(s0, Apply(t, Deliver(Link(s0.holder.host, s0.holder.cores[i]))), k, i + 1)
  {
    var b, l := s0.holder, Link(s0.holder.host, s0.holder.cores[i]);
    ArriveEffect(t.net, l);
    assert Loaded(t.net, b.host, b.cores[i]);
  }

  /** A data write arriving at the i-th core changes no flag. */
  lemma DeliverKeeps(s0: State, t: State, k: nat, i: nat)
    requires s0.holder.Barrier? && Distinct(s0.holder.cores) && k < |s0.holder.cores| && i < |s0.holder.cores| && i != k
    requires Drained(s0, t, k, i) && |Flight(t.net, Link(s0.holder.host, s0.holder.cores[i]))| > 1
    ensures Drained(s0, Apply(t, Deliver(Link(s0.holder.host, s0.holder.cores[i]))), k, i)
  {
    var b, l := s0.holder, Link(s0.holder.host, s0.holder.cores[i]);
    ArriveEffect(t.net, l);
    assert Flight(t.net, l)[0].Data?;
  }

  /** Delivers what is on its way to the i-th core. */
  lemma {:induction false} DrainLink(s0: State, t: State, k: nat, i: nat, n: nat) returns (s: State)
    requires Init(s0) && Distinct(s0.holder.cores) && k < |s0.holder.cores| && i < |s0.holder.cores| && i != k
    requires Reaches(s0, t) && Drained(s0, t, k, i) && s0.holder.cores[i] in t.net.flag
    requires n == |Flight(t.net, Link(s0.holder.host, s0.holder.cores[i]))|
    ensures Reaches(s0, s) && Drained(s0, s, k, i + 1)
    decreases n
  {
    var b, l := s0.holder, Link(s0.holder.host, s0.holder.cores[i]);
    var s1 := Apply(t, Deliver(l));
    ReachesStep(s0, t, Deliver(l));
    if n == 1 {
      s := s1;
      LastDeliver(s0, t, k, i);
    } else {
      ArriveEffect(t.net, l);
      DeliverKeeps(s0, t, k, i);
      s := DrainLink(s0, s1, k, i, n - 1);
    }
  }

  lemma {:induction false} DrainAll(s0: State, k: nat, i: nat) returns (s: State)
    requires Init(s0) && Distinct(s0.holder.cores) && k < |s0.holder.cores| && i <= |s0.holder.cores|
    requires s0.holder.cores[k] in s0.net.flag && s0.net.flag[s0.holder.cores[k]] == RESET
    ensures Reaches(s0, s) && Drained(s0, s, k, i)
  {
    var b := s0.holder;
    if i == 0 {
      var t := PostAll(s0, |b.cores|);
      s := Apply(t, StartPoll);
      ReachesStep(s0, t, StartPoll);
    } else {
      var t := DrainAll(s0, k, i - 1);
      if i - 1 == k {
        s := t;
      } else {
        assert b.cores[i - 1] in SetOf(b.cores);
        s := DrainLink(s0, t, k, i - 1, |Flight(t.net, Link(b.host, b.cores[i - 1]))|);
      }
    }
  }

  /** The sweep sees RESET everywhere. */
  lemma {:induction false} SweepAll(s0: State, k: nat, pos: nat) returns (s: State)
    requires Init(s0) && Distinct(s0.holder.cores) && k < |s0.holder.cores| && pos <= |s0.holder.cores|
    requires s0.holder.cores[k] in s0.net.flag && s0.net.flag[s0.holder.cores[k]] == RESET
    ensures Reaches(s0, s) && !s.timedOut && Loaded(s.net, s0.holder.host, s0.holder.cores[k])
    ensures s.holder == s0.holder.(pc := Polling(RESET, pos, SetOf(s0.holder.cores[..pos])))
    ensures forall j :: 0 <= j < |s0.holder.cores| ==>
            s0.holder.cores[j] in s.net.flag && s.net.flag[s0.holder.cores[j]] == RESET
  {
    var b := s0.holder;
    if pos == 0 {
      s := DrainAll(s0, k, |b.cores|);
      assert SetOf(b.cores[..0]) == {};
    } else {
      var t := SweepAll(s0, k, pos - 1);
      assert b.cores[..pos] == b.cores[..pos - 1] + [b.cores[pos - 1]];
      assert SetOf(b.cores[..pos]) == SetOf(b.cores[..pos - 1]) + {b.cores[pos - 1]};
      if pos == 1 {
        assert SetOf(b.cores[..0]) == {};
      }
      s := Apply(t, Poll);
      ReachesStep(s0, t, Poll);
    }
  }

  /** From a start over a flag that reads RESET, the first barrier can return with its own RESET still travelling. */
  lemma StaleResetSurvivesStart(s0: State, c: Core) returns (s: State)
    requires Init(s0) && Distinct(s0.holder.cores) && c in s0.net.flag && s0.net.flag[c] == RESET
    ensures Reaches(s0, s) && s.holder.Nobody? && !s.timedOut && Flag(RESET) in Flight(s.net, Link(s0.holder.host, c))
    ensures c in s.net.flag && s.net.flag[c] == RESET
  {
    var b := s0.holder;
    assert c in SetOf(b.cores);
    var k :| 0 <= k < |b.cores| && b.cores[k] == c;
    var t := SweepAll(s0, k, |b.cores|);
    assert b.cores[..|b.cores|] == b.cores;
    var u := Apply(t, EndSweep);
    ReachesStep(s0, t, EndSweep);
    DistinctSize(b.cores);
    s := Apply(u, Finish);
    ReachesStep(s0, u, Finish);
  }

  /**
   In every run from s all flags rest at RESET, with none in flight, whenever nobody holds the
   mutex and nothing has timed out.
   */
  ghost predicate AlwaysRests(s: State) {
    forall t :: Reaches(s, t) ==> Rests(t)
  }

  ghost predicate NoFlagReset(s: State) {
    forall c :: c in s.net.flag ==> s.net.flag[c] != RESET
  }

  /** The starts that leave the flags at rest in every run: no flag reads RESET, or the first barrier cannot return. */
  lemma AlwaysRestsIff(s: State)
    requires Init(s)
    ensures AlwaysRests(s) <==> NoFlagReset(s) || !Distinct(s.holder.cores)
  {
    if NoFlagReset(s) || !Distinct(s.holder.cores) {
      forall t | Reaches(s, t)
        ensures Rests(t)
      {
        var run: seq<State>, acts: seq<Action> :| Leads(run, acts, s, t);
        if NoFlagReset(s) {
          FreshRunsRest(run, acts, |acts|);
        } else {
          RepeatedStartHoldsMutex(run, acts, |acts|);
        }
      }
    } else {
      var c :| c in s.net.flag && s.net.flag[c] == RESET;
      var t := StaleResetSurvivesStart(s, c);
      assert !NoFlag(t.net, Link(s.holder.host, c));
    }
  }
}
