/**
 The barrier as one host runs it, with all other traffic free to move between any two of
 its accesses.  Every access is one step of the protocol in `MemoryBarrier`.
 */
module LocalChip {
  import opened Sequences
  import opened MemoryBarrier
  import opened MemoryBarrierStray

  /** What other traffic leaves alone: the barrier in progress. */
  ghost predicate SameHolder(s: State, s': State) {
    s'.holder == s.holder && s'.timedOut == s.timedOut && s.net.flag.Keys <= s'.net.flag.Keys
  }

  /** Every step inside a barrier keeps the property. */
  ghost predicate KeptInside(p: State -> bool) {
    forall s, a {:trigger Apply(s, a)} ::
      p(s) && s.holder.Barrier? && Enabled(s, a) && Apply(s, a).holder.Barrier? ==> p(Apply(s, a))
  }

  lemma RepeatsACore(cores: seq<Core>)
    requires |SetOf(cores)| != |cores|
    ensures !Distinct(cores)
  {
    if Distinct(cores) {
      DistinctSize(cores);
    }
  }

  lemma EmptyIsSynced(cores: seq<Core>, synced: set<Core>)
    requires synced <= SetOf(cores) && |synced| != |cores|
    ensures cores != []
  {
    assert cores == [] ==> synced == {};
  }

  datatype Outcome = Synced | TimedOut | NeverEnds

  class LocalChip {
    const host: Host
    var st: State
    ghost var kept: State -> bool

    /** Inside a barrier the state satisfies a property that every step inside a barrier keeps. */
    ghost predicate Valid()
      reads this
    {
      KeptInside(kept) && (st.holder.Barrier? ==> kept(st))
    }

    /** The host's barrier of the base state over the cores is in progress, at the given place. */
    ghost predicate At(base: State, cores: seq<Core>, pc: Pc)
      reads this
    {
      && base.holder.Barrier? && base.holder.host == host && base.holder.cores == cores
      && CoresKnown(base.net, cores)
      && SameHolder(base.(holder := base.holder.(pc := pc)), st)
    }

    constructor (host: Host, st: State, ghost kept: State -> bool)
      requires KeptInside(kept) && (st.holder.Barrier? ==> kept(st))
      ensures Valid() && this.host == host && this.st == st && this.kept == kept
    {
      this.host, this.st, this.kept := host, st, kept;
    }

    /** One protocol step during a barrier. */
    method Step(a: Action)
      requires Valid() && st.holder.Barrier? && Enabled(st, a)
      modifies this`st
      ensures Valid() && st == Apply(old(st), a) && old(st.net.flag.Keys) <= st.net.flag.Keys
    {
      st := Apply(st, a);
    }

    /** Any number of posts by any host and of deliveries. */
    method OtherTraffic()
      requires Valid() && st.holder.Barrier?
      modifies this`st
      ensures Valid() && SameHolder(old(st), st)
    {
      var steps :| steps >= 0;
      for i := 0 to steps
        invariant Valid() && SameHolder(old(st), st)
      {
        var l: Link := *;
        var id: nat := *;
        var post: bool := *;
        if post && l.core in st.net.flag {
          Step(Issue(l, id));
        } else if !post && Flight(st.net, l) != [] {
          Step(Deliver(l));
        }
      }
    }

    method WriteFlagTo(cores: seq<Core>, i: nat, value: nat, ghost base: State)
      requires Valid() && At(base, cores, Writing(value, i)) && i < |cores|
      modifies this`st
      ensures Valid() && At(base, cores, Writing(value, i + 1))
    {
      OtherTraffic();
      Step(WriteFlag);
    }

    /** Writes the flag to each core in turn, then starts to poll. */
    method WriteFlags(cores: seq<Core>, value: nat, ghost base: State)
      requires Valid() && At(base, cores, Writing(value, 0))
      modifies this`st
      ensures Valid() && At(base, cores, Polling(value, 0, {}))
    {
      for i := 0 to |cores|
        invariant Valid() && At(base, cores, Writing(value, i))
      {
        WriteFlagTo(cores, i, value, base);
      }
      Step(StartPoll);
    }

    method SkipCore(cores: seq<Core>, pos: nat, value: nat, synced: set<Core>, ghost base: State)
      requires Valid() && At(base, cores, Polling(value, pos, synced)) && pos < |cores|
      requires cores[pos] in synced && (pos == 0 ==> |synced| != |cores|)
      modifies this`st
      ensures Valid() && At(base, cores, Polling(value, pos + 1, synced))
    {
      Step(Poll);
    }

    method NextSweep(cores: seq<Core>, value: nat, synced: set<Core>, ghost base: State)
      requires Valid() && At(base, cores, Polling(value, |cores|, synced)) && cores != []
      modifies this`st
      ensures Valid() && At(base, cores, Polling(value, 0, synced))
    {
      Step(EndSweep);
    }

    /** Reads back the flag of one core that has not shown the value yet; a mismatch may end in a timeout. */
    method PollCore(cores: seq<Core>, pos: nat, value: nat, synced: set<Core>, budget: nat, ghost base: State)
      returns (shown: bool, expired: bool)
      requires Valid() && At(base, cores, Polling(value, pos, synced)) && pos < |cores|
      requires cores[pos] !in synced && (pos == 0 ==> |synced| != |cores|)
      modifies this`st
      ensures Valid() && (expired ==> st.timedOut && st.holder.Nobody? && budget == 0 && !shown)
      ensures !expired ==>
                && At(base, cores, Polling(value, pos + 1, if shown then synced + {cores[pos]} else synced))
                && (!shown ==> budget > 0)
    {
      OtherTraffic();
      shown, expired := st.net.flag[cores[pos]] == value, false;
      if !shown && budget == 0 {
        Step(Timeout);
        expired := true;
      } else {
        Step(Poll);
      }
    }

    /** One pass over the cores; each mismatch uses up budget, so a pass without one has seen every core. */
    method Sweep(cores: seq<Core>, value: nat, coresSynced: set<Core>, budget: nat, ghost base: State)
      returns (ok: bool, synced: set<Core>, left: nat)
      requires Valid() && At(base, cores, Polling(value, 0, coresSynced))
      requires |coresSynced| != |cores| && coresSynced <= SetOf(cores)
      modifies this`st
      ensures Valid() && (!ok ==> st.timedOut && st.holder.Nobody?)
      ensures ok ==> At(base, cores, Polling(value, |cores|, synced))
      ensures ok ==> synced <= SetOf(cores) && left <= budget && (left == budget ==> SetOf(cores) <= synced)
    {
      synced, left := coresSynced, budget;
      for pos := 0 to |cores|
        invariant Valid() && At(base, cores, Polling(value, pos, synced))
        invariant (pos == 0 ==> synced == coresSynced) && synced <= SetOf(cores)
        invariant left <= budget && (left == budget ==> forall i :: 0 <= i < pos ==> cores[i] in synced)
      {
        if cores[pos] in synced {
          SkipCore(cores, pos, value, synced, base);
        } else {
          var shown, expired := PollCore(cores, pos, value, synced, left, base);
          if expired {
            return false, synced, left;
          }
          if shown {
            synced := synced + {cores[pos]};
          } else {
            left := left - 1;
          }
        }
      }
      ok := true;
    }

    /** A pass and the step back to the start of the list. */
    method Pass(cores: seq<Core>, value: nat, coresSynced: set<Core>, budget: nat, ghost base: State)
      returns (ok: bool, synced: set<Core>, left: nat)
      requires Valid() && At(base, cores, Polling(value, 0, coresSynced))
      requires |coresSynced| != |cores| && coresSynced <= SetOf(cores)
      modifies this`st
      ensures Valid() && (!ok ==> st.timedOut && st.holder.Nobody?)
      ensures ok ==> At(base, cores, Polling(value, 0, synced)) && synced <= SetOf(cores)
      ensures ok ==> left <= budget && (left < budget || synced == SetOf(cores))
    {
      ok, synced, left := Sweep(cores, value, coresSynced, budget, base);
      if !ok {
        return;
      }
      EmptyIsSynced(cores, coresSynced);
      NextSweep(cores, value, synced, base);
    }

    /**
     Returns when as many cores have shown the value as the list is long, or times out.  A
     list that repeats a core is longer than the set of its cores: once all of them have
     been seen, further passes change nothing, and the outcome says so.
     */
    method SetMembarFlag(cores: seq<Core>, value: nat, polls: nat, ghost base: State) returns (r: Outcome)
      requires Valid() && At(base, cores, Writing(value, 0))
      modifies this`st
      ensures Valid() && (r.TimedOut? ==> st.timedOut && st.holder.Nobody?)
      ensures r.Synced? ==> Distinct(cores)
      ensures r.NeverEnds? ==> !Distinct(cores)
      ensures r.Synced? || r.NeverEnds? ==> At(base, cores, Polling(value, 0, SetOf(cores)))
    {
      WriteFlags(cores, value, base);
      var coresSynced: set<Core> := {};
      var budget := polls;
      while |coresSynced| != |cores|
        invariant Valid() && At(base, cores, Polling(value, 0, coresSynced)) && coresSynced <= SetOf(cores)
        decreases budget
      {
        var ok, left;
        ok, coresSynced, left := Pass(cores, value, coresSynced, budget, base);
        if !ok {
          return TimedOut;
        }
        if left == budget && |coresSynced| != |cores| {
          RepeatsACore(cores);
          return NeverEnds;
        }
        if left == budget {
          break;
        }
        budget := left;
      }
      FullSyncMeansAllDistinct(cores, coresSynced);
      r := Synced;
    }

    /** Takes the mutex; from here on the chip is inside this barrier. */
    method TakeMutex(cores: seq<Core>)
      requires st.holder.Nobody? && CoresKnown(st.net, cores)
      modifies this
      ensures Valid() && kept == ((t: State) => InBarrier(old(st), host, cores, t))
      ensures st == Apply(old(st), Acquire(host, cores)) && At(st, cores, Writing(SET, 0))
    {
      ghost var s0, h := st, host;
      InBarrierStart(s0, h, cores);
      forall s, a | InBarrier(s0, h, cores, s) && Enabled(s, a) && Apply(s, a).holder.Barrier?
        ensures InBarrier(s0, h, cores, Apply(s, a))
      {
        InBarrierStep(s0, h, cores, s, a);
      }
      kept := (t: State) => InBarrier(s0, h, cores, t);
      st := Apply(st, Acquire(host, cores));
    }

    /**
     Whatever timed out before, a barrier that returns has published everything this host
     had issued to its cores before the call, if none of them was vulnerable then; it leaves
     no SET showing or travelling if none was and nothing had timed out.
     */
    method InsertHostToDeviceBarrier(cores: seq<Core>, polls: nat) returns (r: Outcome)
      requires Valid() && st.holder.Nobody? && CoresKnown(st.net, cores)
      modifies this
      ensures Valid()
      ensures if r.TimedOut? then st.timedOut && st.holder.Nobody? else st.timedOut == old(st.timedOut)
      ensures r.NeverEnds? ==> !Distinct(cores) && st.holder.Barrier?
      ensures r.Synced? ==> Distinct(cores) && st.holder.Nobody?
      ensures r.Synced? && (forall c :: c in cores ==> !Vulnerable(old(st.net), host, c)) ==>
                Published(old(st.net), st.net, host, cores)
      ensures r.Synced? && !old(st.timedOut) && Quiescent(old(st.net)) ==>
                Quiescent(st.net) && Published(old(st.net), st.net, host, cores)
    {
      TakeMutex(cores);
      r := SetMembarFlag(cores, SET, polls, st);
      if !r.Synced? {
        return;
      }
      DistinctSize(cores);
      Step(Finish);
      r := SetMembarFlag(cores, RESET, polls, st);
      if !r.Synced? {
        return;
      }
      FinishedBarrier(old(st), host, cores, st);
      Step(Finish);
    }
  }
}
