/**
 When no RESET is travelling to begin with, barriers also leave every flag at RESET with
 no flag write in flight.
 */
module MemoryBarrierQuiet {
  import opened Sequences
  import opened MemoryBarrier

  ghost predicate NoFlag(s: Net, l: Link) {
    forall w :: w in Flight(s, l) ==> w.Data?
  }

  ghost predicate OnlyFlag(s: Net, l: Link, v: nat) {
    forall w :: w in Flight(s, l) ==> w.Data? || w == Flag(v)
  }

  ghost predicate AtMostOneFlag(ws: seq<Write>) {
    forall j, k :: 0 <= j < k < |ws| ==> ws[j].Data? || ws[k].Data?
  }

  ghost predicate OthersQuiet(s: Net, b: Holder)
    requires b.Barrier?
  {
    && (forall l: Link :: l.host != b.host || l.core !in b.cores ==> NoFlag(s, l))
    && (forall c :: c in s.flag && c !in b.cores ==> s.flag[c] == RESET)
  }

  ghost predicate SetQuiet(s: Net, b: Holder)
    requires b.Barrier? && PcOk(s, b)
  {
    && (forall c :: c in b.cores ==> OnlyFlag(s, Link(b.host, c), SET))
    && (forall c :: c in b.cores ==> s.flag[c] == SET || s.flag[c] == RESET)
    && (b.pc.Polling? && Distinct(b.cores) ==> forall c :: c in b.pc.synced ==> s.flag[c] == SET)
  }

  /** The one RESET of this barrier is either in flight or already showing. */
  ghost predicate ResetAppearsOnce(s: Net, l: Link)
    requires l.core in s.flag
  {
    && AtMostOneFlag(Flight(s, l))
    && (s.flag[l.core] == RESET ==> NoFlag(s, l))
  }

  ghost predicate ResetQuiet(s: Net, b: Holder)
    requires b.Barrier? && PcOk(s, b)
  {
    && (forall c :: c in b.cores ==> OnlyFlag(s, Link(b.host, c), RESET))
    && (Distinct(b.cores) ==> forall c :: c in b.cores ==> ResetAppearsOnce(s, Link(b.host, c)))
    && (b.pc.Writing? && Distinct(b.cores) ==>
          forall i :: b.pc.i <= i < |b.cores| ==>
            NoFlag(s, Link(b.host, b.cores[i])) && s.flag[b.cores[i]] != RESET)
    && (b.pc.Polling? ==> forall c :: c in b.pc.synced ==> s.flag[c] == RESET)
  }

  ghost predicate AtRest(s: Net) {
    (forall l :: NoFlag(s, l)) && forall c :: c in s.flag ==> s.flag[c] == RESET
  }

  ghost predicate HolderQuiet(s: Net, b: Holder)
    requires b.Barrier?
  {
    && HolderInv(s, b) && OthersQuiet(s, b)
    && (b.pc.value == SET ==> SetQuiet(s, b))
    && (b.pc.value == RESET ==> ResetQuiet(s, b))
  }

  ghost predicate QuietInv(s: State) {
    !s.timedOut ==> if s.holder.Nobody? then AtRest(s.net) else HolderQuiet(s.net, s.holder)
  }

  lemma PostKeepsNoFlag(s: Net, l: Link, w: Write, m: Link)
    requires NoFlag(s, m) && (l == m ==> w.Data?)
    ensures NoFlag(Post(s, l, w), m)
  {
    PostEffect(s, l, w);
  }

  lemma PostKeepsOnly(s: Net, l: Link, w: Write, m: Link, v: nat)
    requires OnlyFlag(s, m, v) && (l == m ==> w.Data? || w == Flag(v))
    ensures OnlyFlag(Post(s, l, w), m, v)
  {
    PostEffect(s, l, w);
  }

  lemma PostKeepsResetOnce(s: Net, l: Link, w: Write, m: Link)
    requires m.core in s.flag && ResetAppearsOnce(s, m)
    requires l == m && w.Flag? ==> NoFlag(s, m) && s.flag[m.core] != RESET
    ensures ResetAppearsOnce(Post(s, l, w), m)
  {
    PostEffect(s, l, w);
  }

  lemma PostKeepsOthers(s: Net, l: Link, w: Write, b: Holder)
    requires b.Barrier? && OthersQuiet(s, b) && (w.Flag? ==> l.host == b.host && l.core in b.cores)
    ensures OthersQuiet(Post(s, l, w), b)
  {
    forall m: Link | m.host != b.host || m.core !in b.cores
      ensures NoFlag(Post(s, l, w), m)
    {
      PostKeepsNoFlag(s, l, w, m);
    }
  }

  lemma PostKeepsSetQuiet(s: Net, l: Link, w: Write, b: Holder)
    requires b.Barrier? && PcOk(s, b) && SetQuiet(s, b) && (w.Data? || w == Flag(SET))
    ensures SetQuiet(Post(s, l, w), b)
  {
    forall c | c in b.cores
      ensures OnlyFlag(Post(s, l, w), Link(b.host, c), SET)
    {
      PostKeepsOnly(s, l, w, Link(b.host, c), SET);
    }
  }

  lemma PostDataKeepsResetQuiet(s: Net, l: Link, id: nat, b: Holder)
    requires b.Barrier? && PcOk(s, b) && ResetQuiet(s, b)
    ensures ResetQuiet(Post(s, l, Data(id)), b)
  {
    var w := Data(id);
    forall c | c in b.cores
      ensures OnlyFlag(Post(s, l, w), Link(b.host, c), RESET)
      ensures Distinct(b.cores) ==> ResetAppearsOnce(Post(s, l, w), Link(b.host, c))
    {
      PostKeepsOnly(s, l, w, Link(b.host, c), RESET);
      if Distinct(b.cores) {
        PostKeepsResetOnce(s, l, w, Link(b.host, c));
      }
    }
    if b.pc.Writing? && Distinct(b.cores) {
      forall i | b.pc.i <= i < |b.cores|
        ensures NoFlag(Post(s, l, w), Link(b.host, b.cores[i]))
      {
        PostKeepsNoFlag(s, l, w, Link(b.host, b.cores[i]));
      }
    }
  }

  lemma PostDataKeeps(s: Net, l: Link, id: nat, b: Holder)
    requires b.Barrier? && HolderQuiet(s, b)
    ensures HolderQuiet(Post(s, l, Data(id)), b)
  {
    PostKeepsHolderInv(s, l, Data(id), b);
    PostKeepsOthers(s, l, Data(id), b);
    if b.pc.value == SET {
      PostKeepsSetQuiet(s, l, Data(id), b);
    } else {
      PostDataKeepsResetQuiet(s, l, id, b);
    }
  }

  lemma WriteResetKeepsQuiet(s: Net, b: Holder)
    requires b.Barrier? && PcOk(s, b) && ResetQuiet(s, b)
    requires b.pc.Writing? && b.pc.value == RESET && b.pc.i < |b.cores|
    ensures PcOk(Post(s, Link(b.host, b.cores[b.pc.i]), Flag(RESET)), b.(pc := Writing(RESET, b.pc.i + 1)))
    ensures ResetQuiet(Post(s, Link(b.host, b.cores[b.pc.i]), Flag(RESET)), b.(pc := Writing(RESET, b.pc.i + 1)))
  {
    var l, w := Link(b.host, b.cores[b.pc.i]), Flag(RESET);
    assert Distinct(b.cores) ==> NoFlag(s, l) && s.flag[l.core] != RESET;
    forall c | c in b.cores
      ensures OnlyFlag(Post(s, l, w), Link(b.host, c), RESET)
      ensures Distinct(b.cores) ==> ResetAppearsOnce(Post(s, l, w), Link(b.host, c))
    {
      PostKeepsOnly(s, l, w, Link(b.host, c), RESET);
      if Distinct(b.cores) {
        PostKeepsResetOnce(s, l, w, Link(b.host, c));
      }
    }
    if Distinct(b.cores) {
      forall i | b.pc.i < i < |b.cores|
        ensures NoFlag(Post(s, l, w), Link(b.host, b.cores[i]))
      {
        PostKeepsNoFlag(s, l, w, Link(b.host, b.cores[i]));
      }
    }
  }

  lemma WriteFlagKeeps(s: Net, b: Holder)
    requires b.Barrier? && HolderQuiet(s, b) && b.pc.Writing? && b.pc.i < |b.cores|
    ensures HolderQuiet(Post(s, Link(b.host, b.cores[b.pc.i]), Flag(b.pc.value)),
                        b.(pc := Writing(b.pc.value, b.pc.i + 1)))
  {
    var l := Link(b.host, b.cores[b.pc.i]);
    PostKeepsOthers(s, l, Flag(b.pc.value), b);
    if b.pc.value == SET {
      WriteSetKeepsInv(s, b);
      PostKeepsSetQuiet(s, l, Flag(SET), b);
    } else {
      PostKeepsHolderInv(s, l, Flag(RESET), b);
      WriteResetKeepsQuiet(s, b);
    }
  }

  lemma PollKeepsQuiet(s: Net, b: Holder, synced: set<Core>, pos: nat)
    requires b.Barrier? && HolderQuiet(s, b) && b.pc.Polling? && b.pc.pos < |b.cores| && pos <= |b.cores|
    requires synced <= b.pc.synced + (if s.flag[b.cores[b.pc.pos]] == b.pc.value then {b.cores[b.pc.pos]} else {})
    ensures HolderQuiet(s, b.(pc := Polling(b.pc.value, pos, synced)))
  {
    PollKeepsInv(s, b, synced, pos);
  }

  /** Starting a sweep over the cores. */
  lemma SweepKeepsQuiet(s: Net, b: Holder, synced: set<Core>)
    requires b.Barrier? && HolderQuiet(s, b)
    requires synced == if b.pc.Polling? then b.pc.synced else {}
    ensures HolderQuiet(s, b.(pc := Polling(b.pc.value, 0, synced)))
  {
  }

  lemma FinishedSweepQuiet(s: Net, b: Holder)
    requires b.Barrier? && HolderQuiet(s, b) && b.pc.Polling? && |b.pc.synced| == |b.cores|
    ensures b.pc.value == SET ==> HolderQuiet(s, b.(pc := Writing(RESET, 0)))
    ensures b.pc.value == RESET ==> AtRest(s)
  {
    FinishedSweep(s, b);
    FullSyncMeansAllDistinct(b.cores, b.pc.synced);
    if b.pc.value == SET {
      forall c | c in b.cores
        ensures NoFlag(s, Link(b.host, c)) && s.flag[c] == SET
      {
        assert c in b.pc.synced && NoSet(s, Link(b.host, c)) && OnlyFlag(s, Link(b.host, c), SET);
      }
      forall c | c in b.cores
        ensures OnlyFlag(s, Link(b.host, c), RESET) && ResetAppearsOnce(s, Link(b.host, c))
      {
        assert NoFlag(s, Link(b.host, c));
        assert forall k :: 0 <= k < |Flight(s, Link(b.host, c))| ==>
                 Flight(s, Link(b.host, c))[k] in Flight(s, Link(b.host, c));
      }
      forall i | 0 <= i < |b.cores|
        ensures NoFlag(s, Link(b.host, b.cores[i])) && s.flag[b.cores[i]] != RESET
      {
        assert b.cores[i] in b.cores;
      }
    } else {
      forall l
        ensures NoFlag(s, l)
      {
        if l.host == b.host && l.core in b.cores {
          assert l.core in b.pc.synced && ResetAppearsOnce(s, Link(b.host, l.core)) && l == Link(b.host, l.core);
        }
      }
      forall c | c in s.flag
        ensures s.flag[c] == RESET
      {
        if c in b.cores {
          assert c in b.pc.synced;
        }
      }
    }
  }

  lemma AtRestIsQuiescent(s: Net)
    requires AtRest(s)
    ensures Quiescent(s)
  {
    forall l
      ensures NoSet(s, l)
    {
      assert NoFlag(s, l);
    }
  }

  lemma AcquireStartsQuiet(s: Net, h: Host, cores: seq<Core>)
    requires AtRest(s) && forall c :: c in cores ==> c in s.flag
    ensures HolderQuiet(s, Barrier(h, cores, Writing(SET, 0), Snapshot(s, h, cores)))
  {
    AtRestIsQuiescent(s);
    AcquireStartsInv(s, h, cores);
    forall c | c in cores
      ensures OnlyFlag(s, Link(h, c), SET)
    {
      assert NoFlag(s, Link(h, c));
    }
  }

  lemma RestKeeps(s: Net, l: Link, id: nat)
    requires AtRest(s)
    ensures AtRest(Post(s, l, Data(id)))
    ensures Flight(s, l) != [] ==> AtRest(Arrive(s, l))
  {
    forall m
      ensures NoFlag(Post(s, l, Data(id)), m)
    {
      PostKeepsNoFlag(s, l, Data(id), m);
    }
    if Flight(s, l) != [] {
      ArriveEffect(s, l);
      assert NoFlag(s, l) && Flight(s, l)[0] in Flight(s, l);
      forall m
        ensures NoFlag(Arrive(s, l), m)
      {
        assert NoFlag(s, m);
      }
    }
  }

  lemma ArriveOthers(s: Net, l: Link, b: Holder)
    requires b.Barrier? && OthersQuiet(s, b) && Flight(s, l) != []
    ensures OthersQuiet(Arrive(s, l), b)
  {
    ArriveEffect(s, l);
    forall m: Link | m.host != b.host || m.core !in b.cores
      ensures NoFlag(Arrive(s, l), m)
    {
      assert NoFlag(s, m);
    }
    if l.core !in b.cores {
      assert NoFlag(s, l) && Flight(s, l)[0] in Flight(s, l);
    }
  }

  lemma ArriveOnly(s: Net, l: Link, m: Link, v: nat)
    requires Flight(s, l) != [] && OnlyFlag(s, m, v)
    ensures OnlyFlag(Arrive(s, l), m, v)
  {
    ArriveEffect(s, l);
  }

  /** A flag on a link nobody else writes changes only by its own head write. */
  lemma ArriveFlagOf(s: Net, l: Link, m: Link)
    requires Flight(s, l) != [] && m.core in s.flag
    requires l != m && l.core == m.core ==> NoFlag(s, l)
    ensures m.core in Arrive(s, l).flag
    ensures Arrive(s, l).flag[m.core] ==
            if l == m && Flight(s, l)[0].Flag? then Flight(s, l)[0].value else s.flag[m.core]
  {
    assert Flight(s, l)[0] in Flight(s, l);
  }

  lemma ArriveKeepsSetQuiet(s: Net, l: Link, b: Holder)
    requires b.Barrier? && HolderInv(s, b) && b.pc.value == SET && OthersQuiet(s, b) && SetQuiet(s, b)
    requires Flight(s, l) != [] && PcOk(Arrive(s, l), b)
    ensures SetQuiet(Arrive(s, l), b)
  {
    var s' := Arrive(s, l);
    forall c | c in b.cores
      ensures OnlyFlag(s', Link(b.host, c), SET) && (s'.flag[c] == SET || s'.flag[c] == RESET)
      ensures b.pc.Polling? && Distinct(b.cores) && c in b.pc.synced ==> s'.flag[c] == SET
    {
      var m := Link(b.host, c);
      ArriveOnly(s, l, m, SET);
      ArriveFlagOf(s, l, m);
      assert Flight(s, l)[0] in Flight(s, l);
    }
  }

  lemma ArriveResetOnce(s: Net, l: Link, m: Link)
    requires Flight(s, l) != [] && m.core in s.flag && ResetAppearsOnce(s, m)
    requires OnlyFlag(s, m, RESET) && (l != m && l.core == m.core ==> NoFlag(s, l))
    ensures m.core in Arrive(s, l).flag && ResetAppearsOnce(Arrive(s, l), m)
  {
    ArriveEffect(s, l);
    ArriveFlagOf(s, l, m);
    var s' := Arrive(s, l);
    if l == m {
      forall k | 0 <= k < |Flight(s', m)|
        ensures Flight(s', m)[k] == Flight(s, m)[k + 1]
      {
      }
    }
  }

  lemma ArriveKeepsResetQuiet(s: Net, l: Link, b: Holder)
    requires b.Barrier? && HolderInv(s, b) && b.pc.value == RESET && OthersQuiet(s, b) && ResetQuiet(s, b)
    requires Flight(s, l) != [] && PcOk(Arrive(s, l), b)
    ensures ResetQuiet(Arrive(s, l), b)
  {
    var s' := Arrive(s, l);
    ArriveEffect(s, l);
    assert Flight(s, l)[0] in Flight(s, l);
    forall c | c in b.cores
      ensures OnlyFlag(s', Link(b.host, c), RESET)
      ensures Distinct(b.cores) ==> ResetAppearsOnce(s', Link(b.host, c))
      ensures b.pc.Polling? && c in b.pc.synced ==> s'.flag[c] == RESET
    {
      var m := Link(b.host, c);
      ArriveOnly(s, l, m, RESET);
      ArriveFlagOf(s, l, m);
      if Distinct(b.cores) {
        ArriveResetOnce(s, l, m);
      }
    }
    if b.pc.Writing? && Distinct(b.cores) {
      forall i | b.pc.i <= i < |b.cores|
        ensures NoFlag(s', Link(b.host, b.cores[i])) && s'.flag[b.cores[i]] != RESET
      {
        var m := Link(b.host, b.cores[i]);
        assert NoFlag(s, m);
        ArriveFlagOf(s, l, m);
      }
    }
  }

  lemma ArriveKeeps(s: Net, l: Link, b: Holder)
    requires b.Barrier? && HolderQuiet(s, b) && Flight(s, l) != []
    ensures HolderQuiet(Arrive(s, l), b)
  {
    ArriveOthers(s, l, b);
    ArriveKeepsHolders(s, l, b);
    if b.pc.value == SET {
      ArriveKeepsSetPhase(s, l, b);
      ArriveKeepsSetQuiet(s, l, b);
    } else {
      ArriveKeepsResetPhase(s, l, b);
      ArriveKeepsResetQuiet(s, l, b);
    }
  }

  lemma NetStepKeepsQuiet(s: State, a: Action)
    requires QuietInv(s) && Enabled(s, a) && !s.timedOut && (a.Issue? || a.Deliver?)
    ensures QuietInv(Apply(s, a))
  {
    var n, b := s.net, s.holder;
    if a.Issue? {
      if b.Nobody? {
        RestKeeps(n, a.l, a.id);
      } else {
        PostDataKeeps(n, a.l, a.id, b);
      }
    } else {
      if b.Nobody? {
        RestKeeps(n, a.l, 0);
      } else {
        ArriveKeeps(n, a.l, b);
      }
    }
  }

  lemma AcquireStepKeepsQuiet(s: State, h: Host, cores: seq<Core>)
    requires QuietInv(s) && Enabled(s, Acquire(h, cores)) && !s.timedOut
    ensures QuietInv(Apply(s, Acquire(h, cores)))
  {
    AcquireStartsQuiet(s.net, h, cores);
  }

  lemma WriteStepKeepsQuiet(s: State)
    requires QuietInv(s) && Enabled(s, WriteFlag) && !s.timedOut
    ensures QuietInv(Apply(s, WriteFlag))
  {
    WriteFlagKeeps(s.net, s.holder);
  }

  lemma PollStepKeepsQuiet(s: State, a: Action)
    requires QuietInv(s) && Enabled(s, a) && !s.timedOut && (a.Poll? || a.StartPoll? || a.EndSweep?)
    ensures QuietInv(Apply(s, a))
  {
    if a.Poll? {
      PollKeepsQuiet(s.net, s.holder, Apply(s, a).holder.pc.synced, s.holder.pc.pos + 1);
    } else {
      SweepKeepsQuiet(s.net, s.holder, if a.StartPoll? then {} else s.holder.pc.synced);
    }
  }

  lemma FinishStepKeepsQuiet(s: State)
    requires QuietInv(s) && Enabled(s, Finish) && !s.timedOut
    ensures QuietInv(Apply(s, Finish))
  {
    FinishedSweepQuiet(s.net, s.holder);
  }

  /** Every step keeps the flags quiet. */
  lemma StepKeepsQuiet(s: State, a: Action)
    requires QuietInv(s) && Enabled(s, a)
    ensures QuietInv(Apply(s, a))
  {
    if s.timedOut || a.Timeout? {
    } else if a.Issue? || a.Deliver? {
      NetStepKeepsQuiet(s, a);
    } else if a.Acquire? {
      AcquireStepKeepsQuiet(s, a.host, a.cores);
    } else if a.WriteFlag? {
      WriteStepKeepsQuiet(s);
    } else if a.Finish? {
      FinishStepKeepsQuiet(s);
    } else {
      PollStepKeepsQuiet(s, a);
    }
  }
}
