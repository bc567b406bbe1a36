/** What a host-to-device barrier guarantees over whole runs of many hosts. */
module MemoryBarrierTheorems {
  import opened Sequences
  import opened MemoryBarrier
  import opened MemoryBarrierQuiet

  ghost predicate IsRun(run: seq<State>, acts: seq<Action>) {
    && |run| == |acts| + 1
    && (forall i :: 0 <= i < |acts| ==> Enabled(run[i], acts[i]) && run[i + 1] == Apply(run[i], acts[i]))
  }

  lemma InitEstablishesInv(s: State)
    requires Init(s)
    ensures Inv(s)
  {
    forall l
      ensures NoSet(s.net, l)
    {
      assert NoFlag(s.net, l);
    }
  }

  lemma {:induction false} RunKeepsInv(run: seq<State>, acts: seq<Action>, i: nat)
    requires IsRun(run, acts) && Init(run[0]) && i < |run|
    ensures Inv(run[i])
  {
    if i == 0 {
      InitEstablishesInv(run[0]);
    } else {
      RunKeepsInv(run, acts, i - 1);
      StepKeepsInv(run[i - 1], acts[i - 1]);
    }
  }

  /** The barrier taken at step i is still the one holding the mutex at step j. */
  ghost predicate SameBarrier(run: seq<State>, i: nat, j: nat, host: Host, cores: seq<Core>)
    requires i < j < |run|
  {
    forall k :: i < k <= j ==> run[k].holder.Barrier? && run[k].holder.host == host && run[k].holder.cores == cores
  }

  lemma {:induction false} SnapshotIsKept(run: seq<State>, acts: seq<Action>, i: nat, j: nat, h: Host, cores: seq<Core>)
    requires IsRun(run, acts) && i < j < |run| && acts[i] == Acquire(h, cores) && SameBarrier(run, i, j, h, cores)
    ensures run[j].holder.before == Snapshot(run[i].net, h, cores)
  {
    if j > i + 1 {
      SnapshotIsKept(run, acts, i, j - 1, h, cores);
      assert run[j] == Apply(run[j - 1], acts[j - 1]);
      assert run[j].holder.Barrier? && run[j - 1].holder.Barrier?;
    } else {
      assert run[j] == Apply(run[i], acts[i]);
    }
  }

  function LinksOf<V>(m: map<Link, V>, cores: seq<Core>): map<Link, V> {
    map l | l in m && l.core in cores :: m[l]
  }

  function FlagsOf(m: map<Core, nat>, cores: seq<Core>): map<Core, nat> {
    map c | c in m && c in cores :: m[c]
  }

  lemma LinksOfUpdate<V>(m: map<Link, V>, cores: seq<Core>, l: Link, v: V)
    ensures LinksOf(m[l := v], cores) == if l.core in cores then LinksOf(m, cores)[l := v] else LinksOf(m, cores)
  {
  }

  lemma FlagsOfUpdate(m: map<Core, nat>, cores: seq<Core>, c: Core, v: nat)
    ensures FlagsOf(m[c := v], cores) == if c in cores then FlagsOf(m, cores)[c := v] else FlagsOf(m, cores)
  {
  }

  /** The part of the network at some cores, with earlier timeouts forgotten. */
  function OnCores(n: Net, cores: seq<Core>): Net {
    Net(FlagsOf(n.flag, cores), LinksOf(n.flight, cores), LinksOf(n.landed, cores))
  }

  function Local(s: State): State
    requires s.holder.Barrier?
  {
    State(OnCores(s.net, s.holder.cores), s.holder, false)
  }

  predicate Elsewhere(a: Action, cores: seq<Core>) {
    (a.Issue? || a.Deliver?) && a.l.core !in cores
  }

  lemma LocalViews(n: Net, cores: seq<Core>, l: Link)
    requires l.core in cores
    ensures Flight(OnCores(n, cores), l) == Flight(n, l) && Landed(OnCores(n, cores), l) == Landed(n, l)
  {
  }

  lemma LocalPost(n: Net, cores: seq<Core>, l: Link, w: Write)
    ensures OnCores(Post(n, l, w), cores) ==
            if l.core in cores then Post(OnCores(n, cores), l, w) else OnCores(n, cores)
  {
    LinksOfUpdate(n.flight, cores, l, Flight(n, l) + [w]);
    if l.core in cores {
      LocalViews(n, cores, l);
    }
  }

  lemma LocalArrive(n: Net, cores: seq<Core>, l: Link)
    requires Flight(n, l) != []
    ensures l.core in cores ==> Flight(OnCores(n, cores), l) == Flight(n, l)
    ensures OnCores(Arrive(n, l), cores) == if l.core in cores then Arrive(OnCores(n, cores), l) else OnCores(n, cores)
  {
    var w := Flight(n, l)[0];
    LinksOfUpdate(n.flight, cores, l, Flight(n, l)[1..]);
    LinksOfUpdate(n.landed, cores, l, Landed(n, l) + [w]);
    if w.Flag? {
      FlagsOfUpdate(n.flag, cores, l.core, w.value);
    }
    if l.core in cores {
      LocalViews(n, cores, l);
    }
  }

  /** A step during a barrier is the same step on the barrier's cores, or none of their business. */
  lemma LocalStep(s: State, a: Action)
    requires s.holder.Barrier? && Enabled(s, a) && Apply(s, a).holder.Barrier?
    ensures if Elsewhere(a, s.holder.cores) then Local(Apply(s, a)) == Local(s)
            else Enabled(Local(s), a) && Apply(Local(s), a) == Local(Apply(s, a))
  {
    var b := s.holder;
    match a
    case Issue(l, id) => LocalPost(s.net, b.cores, l, Data(id));
    case Deliver(l) => LocalArrive(s.net, b.cores, l);
    case WriteFlag =>
      assert b.cores[b.pc.i] in b.cores;
      LocalPost(s.net, b.cores, Link(b.host, b.cores[b.pc.i]), Flag(b.pc.value));
    case Poll => assert b.cores[b.pc.pos] in b.cores;
    case StartPoll =>
    case EndSweep =>
    case Finish =>
  }

  lemma LocalStepKeepsInv(s: State, a: Action)
    requires s.holder.Barrier? && Enabled(s, a) && Apply(s, a).holder.Barrier? && Inv(Local(s))
    ensures Inv(Local(Apply(s, a)))
  {
    LocalStep(s, a);
    if !Elsewhere(a, s.holder.cores) {
      StepKeepsInv(Local(s), a);
    }
  }

  /** The i-th action leads from the i-th state to the next. */
  ghost predicate StepAt(run: seq<State>, acts: seq<Action>, i: nat)
    requires i < |acts| && |run| == |acts| + 1
  {
    Enabled(run[i], acts[i]) && run[i + 1] == Apply(run[i], acts[i])
  }

  ghost predicate Steps(run: seq<State>, acts: seq<Action>) {
    |run| == |acts| + 1 && forall i {:trigger StepAt(run, acts, i)} :: 0 <= i < |acts| ==> StepAt(run, acts, i)
  }

  lemma RunHasSteps(run: seq<State>, acts: seq<Action>)
    requires IsRun(run, acts)
    ensures Steps(run, acts)
  {
  }

  lemma LocalSnapshot(n: Net, h: Host, cores: seq<Core>)
    ensures Snapshot(OnCores(n, cores), h, cores) == Snapshot(n, h, cores)
  {
    forall c | c in cores
      ensures Issued(OnCores(n, cores), Link(h, c)) == Issued(n, Link(h, c))
    {
      LocalViews(n, cores, Link(h, c));
    }
  }

  /** The barrier's own cores satisfy the invariant. */
  ghost predicate LocalInv(run: seq<State>, i: nat) {
    i < |run| && run[i].holder.Barrier? && Inv(Local(run[i]))
  }

  lemma LocalAcquire(run: seq<State>, acts: seq<Action>, i: nat, h: Host, cores: seq<Core>)
    requires Steps(run, acts) && i < |acts| && acts[i] == Acquire(h, cores) && Quiescent(OnCores(run[i].net, cores))
    ensures LocalInv(run, i + 1)
  {
    assert StepAt(run, acts, i);
    AcquireStartsInv(OnCores(run[i].net, cores), h, cores);
    LocalSnapshot(run[i].net, h, cores);
  }

  lemma LocalNext(run: seq<State>, acts: seq<Action>, i: nat)
    requires Steps(run, acts) && i < |acts| && LocalInv(run, i) && run[i + 1].holder.Barrier?
    ensures LocalInv(run, i + 1)
  {
    assert StepAt(run, acts, i);
    LocalStepKeepsInv(run[i], acts[i]);
  }

  lemma {:induction false} Induct(p: nat -> bool, i: nat, j: nat)
    requires i <= j && p(i) && forall k :: i <= k < j && p(k) ==> p(k + 1)
    ensures p(j)
    decreases j - i
  {
    if i < j {
      Induct(p, i + 1, j);
    }
  }

  lemma LocalInvKept(run: seq<State>, acts: seq<Action>, i: nat, j: nat, h: Host, cores: seq<Core>)
    requires Steps(run, acts) && i < j < |run| && acts[i] == Acquire(h, cores) && SameBarrier(run, i, j, h, cores)
    requires Quiescent(OnCores(run[i].net, cores))
    ensures LocalInv(run, j)
  {
    LocalAcquire(run, acts, i, h, cores);
    forall k | i + 1 <= k < j && LocalInv(run, k)
      ensures LocalInv(run, k + 1)
    {
      LocalNext(run, acts, k);
    }
    Induct((k: nat) => LocalInv(run, k), i + 1, j);
  }

  /**
   Whenever a barrier that took the mutex at step i returns at step j, every write its host
   had issued to the barrier's cores before step i has landed, in the order issued.  It is
   enough that no SET showed or travelled on those cores at step i, whatever timed out
   before and whatever happens at other cores.
   */
  lemma BarrierPublishesOnCleanCores(run: seq<State>, acts: seq<Action>, i: nat, j: nat, h: Host, cores: seq<Core>)
    requires IsRun(run, acts) && i < j < |acts|
    requires acts[i] == Acquire(h, cores) && SameBarrier(run, i, j, h, cores)
    requires acts[j] == Finish && run[j].holder.pc.value == RESET
    requires Quiescent(OnCores(run[i].net, cores))
    ensures run[j + 1].holder.Nobody?
    ensures forall c :: c in cores ==> Issued(run[i].net, Link(h, c)) <= Landed(run[j + 1].net, Link(h, c))
  {
    RunHasSteps(run, acts);
    LocalInvKept(run, acts, i, j, h, cores);
    SnapshotIsKept(run, acts, i, j, h, cores);
    assert Enabled(run[j], acts[j]) && run[j + 1] == Apply(run[j], acts[j]);
    var local := Local(run[j]);
    FinishedSweep(local.net, local.holder);
    forall c | c in cores
      ensures Issued(run[i].net, Link(h, c)) <= Landed(run[j + 1].net, Link(h, c))
    {
      assert Landed(local.net, Link(h, c)) == Landed(run[j].net, Link(h, c));
    }
  }

  /** The driver may have started over flags of any value, provided no barrier has timed out. */
  lemma BarrierPublishesEarlierWrites(run: seq<State>, acts: seq<Action>, i: nat, j: nat, h: Host, cores: seq<Core>)
    requires IsRun(run, acts) && Init(run[0]) && i < j < |acts|
    requires acts[i] == Acquire(h, cores) && SameBarrier(run, i, j, h, cores)
    requires acts[j] == Finish && run[j].holder.pc.value == RESET && !run[i].timedOut
    ensures run[j + 1].holder.Nobody?
    ensures forall c :: c in cores ==> Issued(run[i].net, Link(h, c)) <= Landed(run[j + 1].net, Link(h, c))
  {
    RunKeepsInv(run, acts, i);
    assert Enabled(run[i], acts[i]);
    forall l: Link
      ensures NoSet(OnCores(run[i].net, cores), l)
    {
      assert NoSet(run[i].net, l);
    }
    BarrierPublishesOnCleanCores(run, acts, i, j, h, cores);
  }

  /** Between barriers no SET is showing or travelling, so the next barrier cannot be fooled. */
  lemma NoStaleSetBetweenBarriers(run: seq<State>, acts: seq<Action>, i: nat)
    requires IsRun(run, acts) && Init(run[0]) && i < |run| && !run[i].timedOut && run[i].holder.Nobody?
    ensures forall c :: c in run[i].net.flag ==> run[i].net.flag[c] != SET
    ensures forall l :: Flag(SET) !in Flight(run[i].net, l)
  {
    RunKeepsInv(run, acts, i);
    forall l
      ensures Flag(SET) !in Flight(run[i].net, l)
    {
      assert NoSet(run[i].net, l);
    }
  }

  /** Only cores of the list can have been seen, timed out or not. */
  ghost predicate Shaped(s: State) {
    s.holder.Barrier? && s.holder.pc.Polling? ==>
      s.holder.pc.pos <= |s.holder.cores| && s.holder.pc.synced <= SetOf(s.holder.cores)
  }

  lemma StepKeepsShape(s: State, a: Action)
    requires Shaped(s) && Enabled(s, a)
    ensures Shaped(Apply(s, a))
  {
    if a.Poll? {
      assert s.holder.cores[s.holder.pc.pos] in SetOf(s.holder.cores);
    }
  }

  lemma {:induction false} RunKeepsShape(run: seq<State>, acts: seq<Action>, i: nat)
    requires IsRun(run, acts) && Shaped(run[0]) && i < |run|
    ensures Shaped(run[i])
  {
    if i > 0 {
      RunKeepsShape(run, acts, i - 1);
      StepKeepsShape(run[i - 1], acts[i - 1]);
    }
  }

  /** A barrier over a list that repeats a core polls for ever: it can never return. */
  lemma RepeatedCoreNeverReturns(run: seq<State>, acts: seq<Action>, j: nat)
    requires IsRun(run, acts) && Shaped(run[0]) && j < |acts| && acts[j] == Finish
    ensures Distinct(run[j].holder.cores)
  {
    RunKeepsShape(run, acts, j);
    assert Enabled(run[j], acts[j]);
    FullSyncMeansAllDistinct(run[j].holder.cores, run[j].holder.pc.synced);
  }

  /** The driver starts and no flag already reads RESET. */
  ghost predicate FreshInit(s: State) {
    Init(s) && forall c :: c in s.net.flag ==> s.net.flag[c] != RESET
  }

  lemma FreshInitIsQuiet(s: State)
    requires FreshInit(s)
    ensures QuietInv(s)
  {
    InitEstablishesInv(s);
    var b := s.holder;
    forall l
      ensures NoFlag(s.net, l)
    {
    }
    forall c | c in b.cores
      ensures ResetAppearsOnce(s.net, Link(b.host, c))
    {
      var ws := Flight(s.net, Link(b.host, c));
      assert NoFlag(s.net, Link(b.host, c));
      assert forall k :: 0 <= k < |ws| ==> ws[k] in ws;
    }
  }

  lemma {:induction false} RunKeepsQuiet(run: seq<State>, acts: seq<Action>, i: nat)
    requires IsRun(run, acts) && QuietInv(run[0]) && i < |run|
    ensures QuietInv(run[i])
  {
    if i > 0 {
      RunKeepsQuiet(run, acts, i - 1);
      StepKeepsQuiet(run[i - 1], acts[i - 1]);
    }
  }

  /** A quiet state between barriers. */
  ghost predicate Rests(s: State) {
    s.holder.Nobody? && !s.timedOut ==> AtRest(s.net)
  }

  /** From a start where no flag reads RESET, flags rest between barriers. */
  lemma FreshRunsRest(run: seq<State>, acts: seq<Action>, i: nat)
    requires IsRun(run, acts) && FreshInit(run[0]) && i < |run|
    ensures Rests(run[i])
  {
    FreshInitIsQuiet(run[0]);
    RunKeepsQuiet(run, acts, i);
  }

  /** A run that begins with every flag at RESET, none in flight and the mutex free rests between all barriers. */
  lemma RunsFromRestRest(run: seq<State>, acts: seq<Action>, i: nat)
    requires IsRun(run, acts) && run[0].holder.Nobody? && AtRest(run[0].net) && i < |run|
    ensures Rests(run[i])
  {
    RunKeepsQuiet(run, acts, i);
  }

  /** The initial barrier over a list that repeats a core never gives the mutex back. */
  lemma {:induction false} RepeatedStartHoldsMutex(run: seq<State>, acts: seq<Action>, i: nat)
    requires IsRun(run, acts) && Init(run[0]) && !Distinct(run[0].holder.cores) && i < |run|
    ensures run[i].timedOut || (run[i].holder.Barrier? && run[i].holder.cores == run[0].holder.cores)
  {
    if i > 0 {
      RepeatedStartHoldsMutex(run, acts, i - 1);
      RunKeepsShape(run, acts, i - 1);
      var s, a := run[i - 1], acts[i - 1];
      assert Enabled(s, a) && run[i] == Apply(s, a);
      if a.Finish? && !s.timedOut {
        RepeatedCoreNeverReturns(run, acts, i - 1);
      }
    }
  }
}
