/**
 Barriers over flags and links in any state, as timeouts may leave them: exactly from which
 states every barrier over given cores publishes its host's earlier writes.  A stray SET
 and a stray RESET that can arrive in this order ahead of such a write fool the barrier.
 */
module MemoryBarrierStray {
  import opened Sequences
  import opened MemoryBarrier
  import opened MemoryBarrierTheorems
  import opened MemoryBarrierStart

  /** The run takes the mutex at s and holds it up to t. */
  ghost predicate During(run: seq<State>, acts: seq<Action>, s: State, h: Host, cores: seq<Core>, t: State) {
    && IsRun(run, acts) && acts != [] && acts[0] == Acquire(h, cores) && run[0] == s && run[|acts|] == t
    && SameBarrier(run, 0, |acts|, h, cores)
  }

  /** Some run leads from s into the barrier and to t. */
  ghost predicate InBarrier(s: State, h: Host, cores: seq<Core>, t: State) {
    exists run: seq<State>, acts: seq<Action> :: During(run, acts, s, h, cores, t)
  }

  /** Every write issued by the host to the cores before s has landed in t, in order. */
  ghost predicate Published(s: Net, t: Net, h: Host, cores: seq<Core>) {
    forall c :: c in cores ==> Issued(s, Link(h, c)) <= Landed(t, Link(h, c))
  }

  /** Every barrier of the host over the cores that takes the mutex at s publishes when it returns. */
  ghost predicate AlwaysPublishes(s: State, h: Host, cores: seq<Core>) {
    forall t :: InBarrier(s, h, cores, t) && Enabled(t, Finish) && t.holder.pc.value == RESET ==>
                  Published(s.net, t.net, h, cores)
  }

  /** The write at place i of the link can arrive before the last of the host's writes to the core. */
  ghost predicate Overtakes(s: Net, h: Host, c: Core, l: Link, i: nat, w: Write) {
    && l.core == c && i < |Flight(s, l)| && Flight(s, l)[i] == w
    && (l.host == h ==> i < |Flight(s, l)| - 1)
  }

  ghost predicate SetThenReset(s: Net, h: Host, c: Core, l: Link, i: nat, m: Link, j: nat) {
    && Overtakes(s, h, c, l, i, Flag(SET)) && Overtakes(s, h, c, m, j, Flag(RESET))
    && (l == m ==> i < j)
  }

  /** The core can show SET and then RESET while a write of the host is still travelling. */
  ghost predicate Vulnerable(s: Net, h: Host, c: Core) {
    && Flight(s, Link(h, c)) != []
    && (|| (c in s.flag && s.flag[c] == SET && exists m, j :: Overtakes(s, h, c, m, j, Flag(RESET)))
        || exists l, i, m, j :: SetThenReset(s, h, c, l, i, m, j))
  }

  /** The write was on its way in s, at place i of the link, and has arrived in n. */
  ghost predicate Came(s: Net, n: Net, l: Link, i: nat, w: Write) {
    i < |Flight(s, l)| && |Landed(s, l)| + i < |Landed(n, l)| && Flight(s, l)[i] == w
  }

  ghost predicate SetCame(s: Net, n: Net, c: Core) {
    || (c in s.flag && s.flag[c] == SET)
    || exists l: Link, i: nat :: l.core == c && Came(s, n, l, i, Flag(SET))
  }

  ghost predicate PairCame(s: Net, n: Net, l: Link, i: nat, m: Link, j: nat) {
    Came(s, n, l, i, Flag(SET)) && Came(s, n, m, j, Flag(RESET)) && (l == m ==> i < j)
  }

  ghost predicate ResetCame(s: Net, n: Net, c: Core) {
    || (c in s.flag && s.flag[c] == SET && exists m: Link, j: nat :: m.core == c && Came(s, n, m, j, Flag(RESET)))
    || exists l: Link, i: nat, m: Link, j: nat :: l.core == c && m.core == c && PairCame(s, n, l, i, m, j)
  }

  /** What has been posted since s on links of other hosts is data. */
  ghost predicate Later(s: Net, n: Net, h: Host, l: Link) {
    && Landed(s, l) <= Landed(n, l) && Issued(s, l) <= Issued(n, l)
    && (l.host != h ==> forall k :: |Issued(s, l)| <= k < |Issued(n, l)| ==> Issued(n, l)[k].Data?)
  }

  ghost predicate Behind(s: Net, n: Net, l: Link) {
    |Landed(n, l)| < |Issued(s, l)|
  }

  /** While a write of the host is travelling, what the barrier saw of the core came from stray flags. */
  ghost predicate Explained(s: Net, n: Net, h: Host, c: Core, sawSet: bool, sawReset: bool) {
    Behind(s, n, Link(h, c)) && c in n.flag ==>
      && (n.flag[c] == SET || sawSet ==> SetCame(s, n, c))
      && ((sawSet && n.flag[c] == RESET) || sawReset ==> ResetCame(s, n, c))
  }

  lemma LaterKeepsEvidence(s: Net, n: Net, n': Net, c: Core)
    requires forall l :: |Landed(n, l)| <= |Landed(n', l)|
    ensures SetCame(s, n, c) ==> SetCame(s, n', c)
    ensures ResetCame(s, n, c) ==> ResetCame(s, n', c)
  {
    if SetCame(s, n, c) && !(c in s.flag && s.flag[c] == SET) {
      var l: Link, i: nat :| l.core == c && Came(s, n, l, i, Flag(SET));
      assert Came(s, n', l, i, Flag(SET));
    }
    if ResetCame(s, n, c) {
      if m: Link, j: nat :| c in s.flag && s.flag[c] == SET && m.core == c && Came(s, n, m, j, Flag(RESET)) {
        assert Came(s, n', m, j, Flag(RESET));
      } else {
        var l: Link, i: nat, m: Link, j: nat :| l.core == c && m.core == c && PairCame(s, n, l, i, m, j);
        assert PairCame(s, n', l, i, m, j);
      }
    }
  }

  /** A flag that arrives while a write of the host is travelling is a stray one. */
  lemma FlagIsStray(s: Net, n: Net, h: Host, l: Link)
    requires Flight(n, l) != [] && Flight(n, l)[0].Flag? && Later(s, n, h, l)
    requires Behind(s, Arrive(n, l), Link(h, l.core))
    ensures |Landed(n, l)| - |Landed(s, l)| >= 0
    ensures Came(s, Arrive(n, l), l, |Landed(n, l)| - |Landed(s, l)|, Flight(n, l)[0])
  {
    ArriveEffect(n, l);
    var p := |Landed(n, l)|;
    assert Issued(n, l)[p] == Flight(n, l)[0];
    assert p < |Issued(s, l)|;
    assert Issued(s, l)[p] == Flight(s, l)[p - |Landed(s, l)|];
  }

  /** A RESET that arrives after a SET was seen follows that SET. */
  lemma ResetFollowsSet(s: Net, n: Net, h: Host, l: Link)
    requires Flight(n, l) != [] && Flight(n, l)[0] == Flag(RESET) && Later(s, n, h, l)
    requires Behind(s, Arrive(n, l), Link(h, l.core)) && SetCame(s, n, l.core)
    ensures ResetCame(s, Arrive(n, l), l.core)
  {
    FlagIsStray(s, n, h, l);
    ArriveEffect(n, l);
    var n', j := Arrive(n, l), |Landed(n, l)| - |Landed(s, l)|;
    if !(l.core in s.flag && s.flag[l.core] == SET) {
      var m: Link, i: nat :| m.core == l.core && Came(s, n, m, i, Flag(SET));
      assert Came(s, n', m, i, Flag(SET));
      assert PairCame(s, n', m, i, l, j);
    }
  }

  lemma ArriveKeepsExplained(s: Net, n: Net, h: Host, c: Core, l: Link, sawSet: bool, sawReset: bool)
    requires Flight(n, l) != [] && Later(s, n, h, l) && c in n.flag && Explained(s, n, h, c, sawSet, sawReset)
    ensures Explained(s, Arrive(n, l), h, c, sawSet, sawReset)
  {
    ArriveEffect(n, l);
    var n', w := Arrive(n, l), Flight(n, l)[0];
    LaterKeepsEvidence(s, n, n', c);
    if Behind(s, n', Link(h, c)) {
      assert Behind(s, n, Link(h, c));
      if l.core == c && w.Flag? {
        FlagIsStray(s, n, h, l);
        if w.value == SET {
          assert SetCame(s, n', c);
        } else if sawSet && w.value == RESET {
          ResetFollowsSet(s, n, h, l);
        }
      }
    }
  }

  lemma ArriveKeepsLater(s: Net, n: Net, h: Host, l: Link, m: Link)
    requires Flight(n, l) != [] && Later(s, n, h, m)
    ensures Later(s, Arrive(n, l), h, m)
  {
    ArriveEffect(n, l);
  }

  lemma PostKeepsLater(s: Net, n: Net, h: Host, l: Link, w: Write, m: Link)
    requires Later(s, n, h, m) && (w.Flag? ==> l.host == h)
    ensures Later(s, Post(n, l, w), h, m)
  {
    PostEffect(n, l, w);
    var posted, now := Issued(n, m), Issued(Post(n, l, w), m);
    assert now == if m == l then posted + [w] else posted;
  }

  lemma PostKeepsExplained(s: Net, n: Net, h: Host, c: Core, l: Link, w: Write, sawSet: bool, sawReset: bool)
    requires Explained(s, n, h, c, sawSet, sawReset)
    ensures Explained(s, Post(n, l, w), h, c, sawSet, sawReset)
  {
    PostEffect(n, l, w);
    LaterKeepsEvidence(s, n, Post(n, l, w), c);
  }

  /** The barrier has seen the core's flag at SET. */
  ghost predicate SawSet(b: Holder, c: Core)
    requires b.Barrier?
  {
    b.pc.value == RESET || (b.pc.Polling? && c in b.pc.synced)
  }

  ghost predicate SawReset(b: Holder, c: Core)
    requires b.Barrier?
  {
    b.pc.value == RESET && b.pc.Polling? && c in b.pc.synced
  }

  ghost predicate Shape(b: Holder, h: Host, cores: seq<Core>) {
    && b.Barrier? && b.host == h && b.cores == cores && (b.pc.value == SET || b.pc.value == RESET)
    && (b.pc.Polling? ==> b.pc.synced <= SetOf(cores))
  }

  ghost predicate StrayInv(s: Net, h: Host, cores: seq<Core>, t: State) {
    && Shape(t.holder, h, cores) && (forall l :: Later(s, t.net, h, l))
    && forall c :: c in cores ==>
         c in t.net.flag && Explained(s, t.net, h, c, SawSet(t.holder, c), SawReset(t.holder, c))
  }

  lemma NetStepKeeps(s: Net, h: Host, cores: seq<Core>, t: State, a: Action)
    requires StrayInv(s, h, cores, t) && Enabled(t, a) && (a.Issue? || a.Deliver? || a.WriteFlag?)
    ensures StrayInv(s, h, cores, Apply(t, a))
  {
    var b, u := t.holder, Apply(t, a);
    forall l
      ensures Later(s, u.net, h, l)
    {
      match a
      case Issue(m, id) => PostKeepsLater(s, t.net, h, m, Data(id), l);
      case Deliver(m) => ArriveKeepsLater(s, t.net, h, m, l);
      case WriteFlag => PostKeepsLater(s, t.net, h, Link(b.host, b.cores[b.pc.i]), Flag(b.pc.value), l);
    }
    forall c | c in cores
      ensures c in u.net.flag && Explained(s, u.net, h, c, SawSet(u.holder, c), SawReset(u.holder, c))
    {
      match a
      case Issue(m, id) => PostKeepsExplained(s, t.net, h, c, m, Data(id), SawSet(b, c), SawReset(b, c));
      case Deliver(m) =>
        ArriveEffect(t.net, m);
        ArriveKeepsExplained(s, t.net, h, c, m, SawSet(b, c), SawReset(b, c));
      case WriteFlag =>
        var m, w := Link(b.host, b.cores[b.pc.i]), Flag(b.pc.value);
        PostKeepsExplained(s, t.net, h, c, m, w, SawSet(b, c), SawReset(b, c));
    }
  }

  lemma HolderStepKeeps(s: Net, h: Host, cores: seq<Core>, t: State, a: Action)
    requires StrayInv(s, h, cores, t) && Enabled(t, a) && (a.StartPoll? || a.Poll? || a.EndSweep? || a.Finish?)
    requires Apply(t, a).holder.Barrier?
    ensures StrayInv(s, h, cores, Apply(t, a))
  {
    if a.Poll? {
      assert t.holder.cores[t.holder.pc.pos] in SetOf(cores);
    } else if a.Finish? {
      FullSyncMeansAllDistinct(cores, t.holder.pc.synced);
      assert forall c :: c in cores ==> c in SetOf(cores);
    }
  }

  lemma StrayInvStarts(s: State, h: Host, cores: seq<Core>)
    requires Enabled(s, Acquire(h, cores))
    ensures StrayInv(s.net, h, cores, Apply(s, Acquire(h, cores)))
  {
  }

  lemma {:induction false} RunKeepsStrayInv(run: seq<State>, acts: seq<Action>, h: Host, cores: seq<Core>, j: nat)
    requires Steps(run, acts) && acts != [] && acts[0] == Acquire(h, cores) && 0 < j <= |acts|
    requires forall k :: 0 < k <= j ==> run[k].holder.Barrier?
    ensures StrayInv(run[0].net, h, cores, run[j])
  {
    assert StepAt(run, acts, j - 1);
    if j == 1 {
      StrayInvStarts(run[0], h, cores);
    } else {
      RunKeepsStrayInv(run, acts, h, cores, j - 1);
      var a := acts[j - 1];
      if a.Issue? || a.Deliver? || a.WriteFlag? {
        NetStepKeeps(run[0].net, h, cores, run[j - 1], a);
      } else {
        HolderStepKeeps(run[0].net, h, cores, run[j - 1], a);
      }
    }
  }

  lemma InBarrierKeepsStrayInv(s: State, h: Host, cores: seq<Core>, t: State)
    requires InBarrier(s, h, cores, t)
    ensures StrayInv(s.net, h, cores, t)
  {
    var run: seq<State>, acts: seq<Action> :| During(run, acts, s, h, cores, t);
    RunHasSteps(run, acts);
    RunKeepsStrayInv(run, acts, h, cores, |acts|);
  }

  /** Flags that came while a write of the host is travelling are ones that could overtake it. */
  lemma CameMeansVulnerable(s: Net, n: Net, h: Host, c: Core)
    requires Behind(s, n, Link(h, c)) && Later(s, n, h, Link(h, c)) && ResetCame(s, n, c)
    ensures Vulnerable(s, h, c)
  {
    if m: Link, j: nat :| c in s.flag && s.flag[c] == SET && m.core == c && Came(s, n, m, j, Flag(RESET)) {
      assert Overtakes(s, h, c, m, j, Flag(RESET));
    } else {
      var l: Link, i: nat, m: Link, j: nat :| l.core == c && m.core == c && PairCame(s, n, l, i, m, j);
      assert SetThenReset(s, h, c, l, i, m, j);
    }
  }

  /** With repeats the barrier does not return, and with no vulnerable core it is not fooled. */
  lemma SafePublishes(s: State, h: Host, cores: seq<Core>, t: State)
    requires !Distinct(cores) || forall c :: c in cores ==> !Vulnerable(s.net, h, c)
    requires InBarrier(s, h, cores, t) && Enabled(t, Finish) && t.holder.pc.value == RESET
    ensures Published(s.net, t.net, h, cores)
  {
    InBarrierKeepsStrayInv(s, h, cores, t);
    FullSyncMeansAllDistinct(cores, t.holder.pc.synced);
    forall c | c in cores
      ensures Issued(s.net, Link(h, c)) <= Landed(t.net, Link(h, c))
    {
      assert c in SetOf(cores);
      assert Later(s.net, t.net, h, Link(h, c));
      if Behind(s.net, t.net, Link(h, c)) {
        CameMeansVulnerable(s.net, t.net, h, c);
      }
    }
  }

  lemma InBarrierStart(s: State, h: Host, cores: seq<Core>)
    requires Enabled(s, Acquire(h, cores))
    ensures InBarrier(s, h, cores, Apply(s, Acquire(h, cores)))
  {
    var a := Acquire(h, cores);
    assert During([s, Apply(s, a)], [a], s, h, cores, Apply(s, a));
  }

  lemma InBarrierStep(s: State, h: Host, cores: seq<Core>, t: State, a: Action)
    requires InBarrier(s, h, cores, t) && Enabled(t, a) && Apply(t, a).holder.Barrier?
    ensures InBarrier(s, h, cores, Apply(t, a))
  {
    var run: seq<State>, acts: seq<Action> :| During(run, acts, s, h, cores, t);
    var run', acts' := run + [Apply(t, a)], acts + [a];
    forall i | 0 <= i < |acts'|
      ensures Enabled(run'[i], acts'[i]) && run'[i + 1] == Apply(run'[i], acts'[i])
    {
      assert i < |acts| ==> Enabled(run[i], acts[i]) && run[i + 1] == Apply(run[i], acts[i]);
    }
    forall k | 0 < k <= |acts'|
      ensures run'[k].holder.Barrier? && run'[k].holder.host == h && run'[k].holder.cores == cores
    {
      assert k <= |acts| ==> run'[k] == run[k];
    }
    assert During(run', acts', s, h, cores, Apply(t, a));
  }

  lemma {:induction false} RunInsideKeepsInv(run: seq<State>, acts: seq<Action>, j: nat)
    requires Steps(run, acts) && Inv(run[0]) && j <= |acts|
    requires forall k :: 0 < k <= j ==> run[k].holder.Barrier?
    ensures Inv(run[j]) && (j > 0 ==> run[j].timedOut == run[0].timedOut)
  {
    if j > 0 {
      RunInsideKeepsInv(run, acts, j - 1);
      assert StepAt(run, acts, j - 1);
      StepKeepsInv(run[j - 1], acts[j - 1]);
    }
  }

  lemma InBarrierKeepsInv(s: State, h: Host, cores: seq<Core>, t: State)
    requires InBarrier(s, h, cores, t) && Inv(s)
    ensures Inv(t) && t.timedOut == s.timedOut
  {
    var run: seq<State>, acts: seq<Action> :| During(run, acts, s, h, cores, t);
    RunHasSteps(run, acts);
    RunInsideKeepsInv(run, acts, |acts|);
  }

  ghost predicate Shows(n: Net, c: Core, v: nat) {
    c in n.flag && n.flag[c] == v
  }

  /** The first i writes on a link have arrived. */
  ghost function ArriveN(n: Net, l: Link, i: nat): (r: Net)
    requires i <= |Flight(n, l)|
    ensures Flight(r, l) == Flight(n, l)[i..]
  {
    if i == 0 then n
    else
      var r := ArriveN(n, l, i - 1);
      ArriveEffect(r, l);
      Arrive(r, l)
  }

  /** The effect of the first i writes of a link on it, on the other links and on its core's flag. */
  ghost predicate Moved(n: Net, r: Net, l: Link, i: nat)
    requires i <= |Flight(n, l)|
  {
    && Landed(r, l) == Landed(n, l) + Flight(n, l)[..i] && Flight(r, l) == Flight(n, l)[i..]
    && (forall m :: m != l ==> Flight(r, m) == Flight(n, m) && Landed(r, m) == Landed(n, m))
    && (i > 0 && Flight(n, l)[i - 1].Flag? ==> Shows(r, l.core, Flight(n, l)[i - 1].value))
  }

  lemma MovesOn(n: Net, r: Net, l: Link, i: nat)
    requires i < |Flight(n, l)| && Moved(n, r, l, i)
    ensures Moved(n, Arrive(r, l), l, i + 1)
  {
    ArriveEffect(r, l);
    assert Flight(n, l)[..i + 1] == Flight(n, l)[..i] + [Flight(n, l)[i]];
  }

  lemma {:induction false} ArriveNEffect(n: Net, l: Link, i: nat)
    requires i <= |Flight(n, l)|
    ensures Moved(n, ArriveN(n, l, i), l, i)
  {
    if i > 0 {
      ArriveNEffect(n, l, i - 1);
      MovesOn(n, ArriveN(n, l, i - 1), l, i - 1);
    }
  }

  ghost predicate CoresKnown(n: Net, cores: seq<Core>) {
    forall c :: c in cores ==> c in n.flag
  }

  /** The last write on its way to the core is the flag. */
  ghost predicate Ends(n: Net, h: Host, c: Core, v: nat) {
    var ws := Flight(n, Link(h, c));
    ws != [] && ws[|ws| - 1] == Flag(v)
  }

  /** What the fooled core's part of the network is after its flag has been posted. */
  ghost function Target(t: State, h: Host, c: Core, v: nat): Net {
    Post(OnCores(t.net, [c]), Link(h, c), Flag(v))
  }

  /** The flag has been posted to the first i cores. */
  ghost predicate Written(t: State, u: State, k: nat, v: nat, i: nat)
    requires t.holder.Barrier? && k < |t.holder.cores|
  {
    var b := t.holder;
    && i <= |b.cores| && u.holder == b.(pc := Writing(v, i)) && CoresKnown(u.net, b.cores)
    && OnCores(u.net, [b.cores[k]]) ==
        (if k < i then Target(t, b.host, b.cores[k], v) else OnCores(t.net, [b.cores[k]]))
    && forall j :: 0 <= j < i ==> Ends(u.net, b.host, b.cores[j], v)
  }

  lemma PostEnds(n: Net, h: Host, c: Core, d: Core, v: nat)
    ensures c == d || Ends(n, h, d, v) ==> Ends(Post(n, Link(h, c), Flag(v)), h, d, v)
  {
    PostEffect(n, Link(h, c), Flag(v));
  }

  lemma WriteOne(t: State, u: State, k: nat, v: nat, i: nat)
    requires t.holder.Barrier? && Distinct(t.holder.cores) && k < |t.holder.cores| && i < |t.holder.cores|
    requires Written(t, u, k, v, i)
    ensures Enabled(u, WriteFlag) && Written(t, Apply(u, WriteFlag), k, v, i + 1)
  {
    var b := t.holder;
    LocalPost(u.net, [b.cores[k]], Link(b.host, b.cores[i]), Flag(v));
    forall j | 0 <= j < i + 1
      ensures Ends(Post(u.net, Link(b.host, b.cores[i]), Flag(v)), b.host, b.cores[j], v)
    {
      PostEnds(u.net, b.host, b.cores[i], b.cores[j], v);
    }
  }

  lemma {:induction false} WriteAll(s: State, h: Host, cores: seq<Core>, t: State, k: nat, v: nat, i: nat)
    returns (u: State)
    requires InBarrier(s, h, cores, t) && t.holder.Barrier? && t.holder.cores == cores && t.holder.host == h
    requires Distinct(cores) && k < |cores| && i <= |cores|
    requires t.holder.pc == Writing(v, 0) && CoresKnown(t.net, cores)
    ensures InBarrier(s, h, cores, u) && Written(t, u, k, v, i)
  {
    if i == 0 {
      u := t;
    } else {
      var u' := WriteAll(s, h, cores, t, k, v, i - 1);
      WriteOne(t, u', k, v, i - 1);
      InBarrierStep(s, h, cores, u', WriteFlag);
      u := Apply(u', WriteFlag);
    }
  }

  /** All flags are posted; the first i cores but the k-th show them. */
  ghost predicate Shown(t: State, u: State, k: nat, v: nat, i: nat)
    requires t.holder.Barrier? && k < |t.holder.cores|
  {
    var b := t.holder;
    && i <= |b.cores| && u.holder == b.(pc := Polling(v, 0, {})) && CoresKnown(u.net, b.cores)
    && OnCores(u.net, [b.cores[k]]) == Target(t, b.host, b.cores[k], v)
    && (forall j :: 0 <= j < i && j != k ==> b.cores[j] in u.net.flag && u.net.flag[b.cores[j]] == v)
    && (forall j :: i <= j < |b.cores| && j != k ==> Ends(u.net, b.host, b.cores[j], v))
  }

  lemma ArriveSpares(n: Net, h: Host, c: Core, d: Core, v: nat)
    requires c != d && Flight(n, Link(h, c)) != []
    ensures Ends(n, h, d, v) ==> Ends(Arrive(n, Link(h, c)), h, d, v)
  {
    ArriveEffect(n, Link(h, c));
  }

  lemma ArriveToEnd(n: Net, h: Host, c: Core, v: nat)
    requires Ends(n, h, c, v) && c in n.flag
    ensures var n' := Arrive(n, Link(h, c));
            if |Flight(n, Link(h, c))| == 1 then c in n'.flag && n'.flag[c] == v else Ends(n', h, c, v)
  {
    ArriveEffect(n, Link(h, c));
  }

  lemma ShowOne(t: State, u: State, k: nat, v: nat, i: nat)
    requires t.holder.Barrier? && Distinct(t.holder.cores) && k < |t.holder.cores| && i < |t.holder.cores| && i != k
    requires Shown(t, u, k, v, i)
    ensures var l := Link(t.holder.host, t.holder.cores[i]);
            Enabled(u, Deliver(l)) && Shown(t, Apply(u, Deliver(l)), k, v, if |Flight(u.net, l)| == 1 then i + 1 else i)
  {
    var b := t.holder;
    var l := Link(b.host, b.cores[i]);
    ArriveToEnd(u.net, b.host, b.cores[i], v);
    ArriveEffect(u.net, l);
    LocalArrive(u.net, [b.cores[k]], l);
    forall j | i < j < |b.cores| && j != k
      ensures Ends(Arrive(u.net, l), b.host, b.cores[j], v)
    {
      ArriveSpares(u.net, b.host, b.cores[i], b.cores[j], v);
    }
  }

  lemma {:induction false} ShowCore(s: State, h: Host, cores: seq<Core>, t: State, u: State, k: nat, v: nat, i: nat)
    returns (u': State)
    requires t.holder.Barrier? && t.holder.cores == cores && t.holder.host == h
    requires InBarrier(s, h, cores, u) && Distinct(cores) && k < |cores| && i < |cores| && i != k
    requires Shown(t, u, k, v, i)
    ensures InBarrier(s, h, cores, u') && Shown(t, u', k, v, i + 1)
    decreases |Flight(u.net, Link(h, cores[i]))|
  {
    var l := Link(h, cores[i]);
    ShowOne(t, u, k, v, i);
    InBarrierStep(s, h, cores, u, Deliver(l));
    u' := Apply(u, Deliver(l));
    ArriveEffect(u.net, l);
    if |Flight(u.net, l)| > 1 {
      u' := ShowCore(s, h, cores, t, u', k, v, i);
    }
  }

  lemma {:induction false} ShowAll(s: State, h: Host, cores: seq<Core>, t: State, k: nat, v: nat, i: nat)
    returns (u: State)
    requires InBarrier(s, h, cores, t) && t.holder.Barrier? && t.holder.cores == cores && t.holder.host == h
    requires Distinct(cores) && k < |cores| && i <= |cores|
    requires t.holder.pc == Writing(v, 0) && CoresKnown(t.net, cores)
    ensures InBarrier(s, h, cores, u) && Shown(t, u, k, v, i)
  {
    if i == 0 {
      var u' := WriteAll(s, h, cores, t, k, v, |cores|);
      InBarrierStep(s, h, cores, u', StartPoll);
      u := Apply(u', StartPoll);
    } else {
      u := ShowAll(s, h, cores, t, k, v, i - 1);
      if i - 1 != k {
        u := ShowCore(s, h, cores, t, u, k, v, i - 1);
      }
    }
  }

  /** All but the k-th core show the flag; the first i writes on a link to the k-th have arrived. */
  ghost predicate Served(t: State, u: State, k: nat, v: nat, l: Link, i: nat)
    requires t.holder.Barrier? && k < |t.holder.cores|
  {
    var b := t.holder;
    var target := Target(t, b.host, b.cores[k], v);
    && u.holder == b.(pc := Polling(v, 0, {})) && CoresKnown(u.net, b.cores)
    && l.core == b.cores[k] && i <= |Flight(target, l)|
    && OnCores(u.net, [b.cores[k]]) == ArriveN(target, l, i)
    && (forall j :: 0 <= j < |b.cores| && j != k ==> b.cores[j] in u.net.flag && u.net.flag[b.cores[j]] == v)
  }

  lemma ServeOne(t: State, u: State, k: nat, v: nat, l: Link, i: nat)
    requires t.holder.Barrier? && Distinct(t.holder.cores) && k < |t.holder.cores| && Served(t, u, k, v, l, i)
    requires i < |Flight(Target(t, t.holder.host, t.holder.cores[k], v), l)|
    ensures Enabled(u, Deliver(l)) && Served(t, Apply(u, Deliver(l)), k, v, l, i + 1)
  {
    LocalViews(u.net, [t.holder.cores[k]], l);
    LocalArrive(u.net, [t.holder.cores[k]], l);
    ArriveEffect(u.net, l);
  }

  lemma {:induction false} Serve(s: State, h: Host, cores: seq<Core>, t: State, k: nat, v: nat, l: Link, i: nat)
    returns (u: State)
    requires InBarrier(s, h, cores, t) && t.holder.Barrier? && t.holder.cores == cores && t.holder.host == h
    requires Distinct(cores) && k < |cores| && t.holder.pc == Writing(v, 0) && CoresKnown(t.net, cores)
    requires l.core == cores[k] && i <= |Flight(Target(t, h, cores[k], v), l)|
    ensures InBarrier(s, h, cores, u) && Served(t, u, k, v, l, i)
  {
    if i == 0 {
      u := ShowAll(s, h, cores, t, k, v, |cores|);
    } else {
      var u' := Serve(s, h, cores, t, k, v, l, i - 1);
      ServeOne(t, u', k, v, l, i - 1);
      InBarrierStep(s, h, cores, u', Deliver(l));
      u := Apply(u', Deliver(l));
    }
  }

  ghost predicate Swept(u: State, w: State, v: nat, pos: nat)
    requires u.holder.Barrier? && pos <= |u.holder.cores|
  {
    w == u.(holder := u.holder.(pc := Polling(v, pos, SetOf(u.holder.cores[..pos]))))
  }

  lemma SetOfNext(cores: seq<Core>, pos: nat)
    requires pos < |cores|
    ensures SetOf(cores[..pos + 1]) == SetOf(cores[..pos]) + {cores[pos]}
    ensures SetOf(cores[..0]) == {}
  {
    assert cores[..pos + 1] == cores[..pos] + [cores[pos]];
  }

  lemma SweepOne(u: State, w: State, v: nat, pos: nat)
    requires u.holder.Barrier? && pos < |u.holder.cores| && Swept(u, w, v, pos)
    requires u.holder.cores[pos] in u.net.flag && u.net.flag[u.holder.cores[pos]] == v
    ensures Enabled(w, Poll) && Swept(u, Apply(w, Poll), v, pos + 1)
  {
    var c, synced := u.holder.cores[pos], SetOf(u.holder.cores[..pos]);
    SetOfNext(u.holder.cores, pos);
    assert c in synced ==> synced + {c} == synced;
  }

  /** The sweep sees the flag everywhere. */
  lemma {:induction false} SweepPrefix(s: State, h: Host, cores: seq<Core>, u: State, v: nat, pos: nat)
    returns (w: State)
    requires InBarrier(s, h, cores, u) && u.holder.Barrier? && u.holder.cores == cores && pos <= |cores|
    requires u.holder.pc == Polling(v, 0, {}) && forall c :: c in cores ==> c in u.net.flag && u.net.flag[c] == v
    ensures InBarrier(s, h, cores, w) && Swept(u, w, v, pos)
  {
    if pos == 0 {
      assert SetOf(cores[..0]) == {};
      w := u;
    } else {
      var w' := SweepPrefix(s, h, cores, u, v, pos - 1);
      SweepOne(u, w', v, pos - 1);
      InBarrierStep(s, h, cores, w', Poll);
      w := Apply(w', Poll);
    }
  }

  /** A whole write-and-poll phase in which only the first i writes of one link reach the k-th core. */
  lemma Phase(s: State, h: Host, cores: seq<Core>, t: State, k: nat, v: nat, l: Link, i: nat)
    returns (u: State)
    requires InBarrier(s, h, cores, t) && t.holder.Barrier? && t.holder.cores == cores && t.holder.host == h
    requires Distinct(cores) && k < |cores| && t.holder.pc == Writing(v, 0) && CoresKnown(t.net, cores)
    requires l.core == cores[k] && i <= |Flight(Target(t, h, cores[k], v), l)|
    requires var n := ArriveN(Target(t, h, cores[k], v), l, i); cores[k] in n.flag && n.flag[cores[k]] == v
    ensures InBarrier(s, h, cores, u) && Enabled(u, Finish) && CoresKnown(u.net, cores)
    ensures u.holder == t.holder.(pc := Polling(v, 0, SetOf(cores)))
    ensures OnCores(u.net, [cores[k]]) == ArriveN(Target(t, h, cores[k], v), l, i)
  {
    var u' := Serve(s, h, cores, t, k, v, l, i);
    assert cores[k] in OnCores(u'.net, [cores[k]]).flag;
    forall c | c in cores
      ensures c in u'.net.flag && u'.net.flag[c] == v
    {
      var j :| 0 <= j < |cores| && cores[j] == c;
    }
    var w := SweepPrefix(s, h, cores, u', v, |cores|);
    assert cores[..|cores|] == cores;
    InBarrierStep(s, h, cores, w, EndSweep);
    u := Apply(w, EndSweep);
    DistinctSize(cores);
  }

  /** The core's part of the network after a phase. */
  ghost function AfterPhase(n: Net, h: Host, c: Core, v: nat, l: Link, i: nat): Net
    requires i <= |Flight(n, l)|
  {
    PostEffect(n, Link(h, c), Flag(v));
    ArriveN(Post(n, Link(h, c), Flag(v)), l, i)
  }

  lemma AfterPhaseEffect(n: Net, h: Host, c: Core, v: nat, l: Link, i: nat)
    requires i <= |Flight(n, l)|
    ensures var r := AfterPhase(n, h, c, v, l, i);
            && Landed(r, l) == Landed(n, l) + Flight(n, l)[..i] && Flight(n, l)[i..] <= Flight(r, l)
            && (forall m :: m != l ==> Landed(r, m) == Landed(n, m) && Flight(n, m) <= Flight(r, m))
            && (i == 0 ==> r.flag == n.flag)
            && (i > 0 && Flight(n, l)[i - 1] == Flag(v) ==> l.core in r.flag && r.flag[l.core] == v)
  {
    PostEffect(n, Link(h, c), Flag(v));
    ArriveNEffect(Post(n, Link(h, c), Flag(v)), l, i);
  }

  /** The barrier runs through both phases while little reaches the k-th core. */
  lemma BothPhases(s: State, h: Host, cores: seq<Core>, k: nat, l: Link, p: nat, m: Link, q: nat)
    returns (t: State)
    requires Enabled(s, Acquire(h, cores)) && Distinct(cores) && k < |cores|
    requires l.core == cores[k] == m.core
    requires p <= |Flight(OnCores(s.net, [cores[k]]), l)|
    requires var n := AfterPhase(OnCores(s.net, [cores[k]]), h, cores[k], SET, l, p);
             && Shows(n, cores[k], SET) && q <= |Flight(n, m)|
             && Shows(AfterPhase(n, h, cores[k], RESET, m, q), cores[k], RESET)
    ensures InBarrier(s, h, cores, t) && Enabled(t, Finish) && t.holder.pc.value == RESET
    ensures var n := AfterPhase(OnCores(s.net, [cores[k]]), h, cores[k], SET, l, p);
            OnCores(t.net, [cores[k]]) == AfterPhase(n, h, cores[k], RESET, m, q)
  {
    var a := Apply(s, Acquire(h, cores));
    InBarrierStart(s, h, cores);
    var u := Phase(s, h, cores, a, k, SET, l, p);
    InBarrierStep(s, h, cores, u, Finish);
    t := Phase(s, h, cores, Apply(u, Finish), k, RESET, m, q);
  }

  lemma StrayFlagDecides(n: Net, h: Host, c: Core, v: nat, l: Link, i: nat)
    requires l.core == c && i <= |Flight(n, l)|
    requires if i == 0 then Shows(n, c, v) else Flight(n, l)[i - 1] == Flag(v)
    ensures var r := AfterPhase(n, h, c, v, l, i);
            && Shows(r, c, v)
            && |Landed(r, Link(h, c))| == |Landed(n, Link(h, c))| + (if l == Link(h, c) then i else 0)
  {
    AfterPhaseEffect(n, h, c, v, l, i);
  }

  /** What was in flight before the phase is in the same place after it, less what has arrived. */
  lemma StrayFlagsMoveUp(n: Net, h: Host, c: Core, v: nat, l: Link, i: nat, m: Link, j: nat)
    requires i <= |Flight(n, l)| && j < |Flight(n, m)| && (l == m ==> i <= j)
    ensures var r, j' := AfterPhase(n, h, c, v, l, i), if l == m then j - i else j;
            j' < |Flight(r, m)| && Flight(r, m)[j'] == Flight(n, m)[j]
  {
    AfterPhaseEffect(n, h, c, v, l, i);
  }

  /** Up to the two stray flags, the host's last write to the core does not arrive. */
  lemma LastStaysBehind(n: Net, h: Host, c: Core, l: Link, p: nat, m: Link, q: nat, j: nat)
    requires Flight(n, Link(h, c)) != [] && l.core == c == m.core
    requires p > 0 ==> Overtakes(n, h, c, l, p - 1, Flag(SET))
    requires Overtakes(n, h, c, m, j, Flag(RESET))
    requires if l == m then p <= j && q == j + 1 - p else q == j + 1
    ensures var last := Link(h, c);
            (if l == last then p else 0) + (if m == last then q else 0) < |Flight(n, last)|
  {
  }

  /** The stray flags decide both phases, and the last of the host's writes has not landed. */
  lemma StrayFlagsDecide(n: Net, h: Host, c: Core, l: Link, p: nat, m: Link, q: nat, j: nat)
    requires Flight(n, Link(h, c)) != [] && l.core == c == m.core && p <= |Flight(n, l)|
    requires if p == 0 then Shows(n, c, SET) else Overtakes(n, h, c, l, p - 1, Flag(SET))
    requires Overtakes(n, h, c, m, j, Flag(RESET))
    requires if l == m then p <= j && q == j + 1 - p else q == j + 1
    ensures var n1 := AfterPhase(n, h, c, SET, l, p);
            && Shows(n1, c, SET) && q <= |Flight(n1, m)|
            && var n2 := AfterPhase(n1, h, c, RESET, m, q);
               Shows(n2, c, RESET) && |Landed(n2, Link(h, c))| < |Issued(n, Link(h, c))|
  {
    StrayFlagDecides(n, h, c, SET, l, p);
    StrayFlagsMoveUp(n, h, c, SET, l, p, m, j);
    LastStaysBehind(n, h, c, l, p, m, q, j);
    StrayFlagDecides(AfterPhase(n, h, c, SET, l, p), h, c, RESET, m, q);
  }

  lemma CoreViews(n: Net, h: Host, c: Core)
    ensures forall l, i, w :: Overtakes(n, h, c, l, i, w) ==> Overtakes(OnCores(n, [c]), h, c, l, i, w)
    ensures forall l: Link :: l.core == c ==> Flight(OnCores(n, [c]), l) == Flight(n, l)
    ensures Landed(OnCores(n, [c]), Link(h, c)) == Landed(n, Link(h, c))
    ensures forall v :: Shows(n, c, v) ==> Shows(OnCores(n, [c]), c, v)
  {
  }

  /** A vulnerable core fools some barrier. */
  lemma FooledBarrier(s: State, h: Host, cores: seq<Core>, c: Core) returns (t: State)
    requires Enabled(s, Acquire(h, cores)) && Distinct(cores) && c in cores && Vulnerable(s.net, h, c)
    ensures InBarrier(s, h, cores, t) && Enabled(t, Finish) && t.holder.pc.value == RESET
    ensures Behind(s.net, t.net, Link(h, c))
  {
    var k :| 0 <= k < |cores| && cores[k] == c;
    var n := OnCores(s.net, [c]);
    CoreViews(s.net, h, c);
    var l: Link, p: nat, m: Link, j: nat;
    if m': Link, j': nat :| Shows(s.net, c, SET) && Overtakes(s.net, h, c, m', j', Flag(RESET)) {
      l, p, m, j := m', 0, m', j';
    } else {
      var l': Link, i': nat, m': Link, j': nat :| SetThenReset(s.net, h, c, l', i', m', j');
      l, p, m, j := l', i' + 1, m', j';
    }
    var q := if l == m then j + 1 - p else j + 1;
    StrayFlagsDecide(n, h, c, l, p, m, q, j);
    t := BothPhases(s, h, cores, k, l, p, m, q);
    CoreViews(t.net, h, c);
  }

  /**
   A barrier of the host over the cores publishes in every run from s exactly if it cannot
   return at all, its list repeating a core, or none of its cores is vulnerable in s.
   */
  lemma AlwaysPublishesIff(s: State, h: Host, cores: seq<Core>)
    requires Enabled(s, Acquire(h, cores))
    ensures AlwaysPublishes(s, h, cores) <==> !Distinct(cores) || forall c :: c in cores ==> !Vulnerable(s.net, h, c)
  {
    if !Distinct(cores) || forall c :: c in cores ==> !Vulnerable(s.net, h, c) {
      forall t | InBarrier(s, h, cores, t) && Enabled(t, Finish) && t.holder.pc.value == RESET
        ensures Published(s.net, t.net, h, cores)
      {
        SafePublishes(s, h, cores, t);
      }
    } else {
      var c :| c in cores && Vulnerable(s.net, h, c);
      var t := FooledBarrier(s, h, cores, c);
      assert !Published(s.net, t.net, h, cores);
    }
  }

  /** A phase in which everything posted to the first core arrives, its flag last. */
  lemma FullPhase(s: State, h: Host, cores: seq<Core>, t: State, v: nat) returns (u: State)
    requires InBarrier(s, h, cores, t) && t.holder.Barrier? && t.holder.cores == cores && t.holder.host == h
    requires Distinct(cores) && t.holder.pc == Writing(v, 0) && CoresKnown(t.net, cores)
    ensures InBarrier(s, h, cores, u) && Enabled(u, Finish) && CoresKnown(u.net, cores)
    ensures u.holder == t.holder.(pc := Polling(v, 0, SetOf(cores)))
  {
    if cores == [] {
      InBarrierStep(s, h, cores, t, StartPoll);
      u := Apply(t, StartPoll);
      assert SetOf(cores) == {};
    } else {
      var n, l := Target(t, h, cores[0], v), Link(h, cores[0]);
      PostEffect(OnCores(t.net, [cores[0]]), l, Flag(v));
      ArriveNEffect(n, l, |Flight(n, l)|);
      u := Phase(s, h, cores, t, 0, v, l, |Flight(n, l)|);
    }
  }

  /** Some run of the barrier gets to its return. */
  ghost predicate CanReturn(s: State, h: Host, cores: seq<Core>) {
    exists t :: InBarrier(s, h, cores, t) && Enabled(t, Finish) && t.holder.pc.value == RESET
  }

  /** A barrier can return exactly if its list repeats no core, whatever the flags and links hold. */
  lemma CanReturnIff(s: State, h: Host, cores: seq<Core>)
    requires Enabled(s, Acquire(h, cores))
    ensures CanReturn(s, h, cores) <==> Distinct(cores)
  {
    if Distinct(cores) {
      InBarrierStart(s, h, cores);
      var u := FullPhase(s, h, cores, Apply(s, Acquire(h, cores)), SET);
      InBarrierStep(s, h, cores, u, Finish);
      var t := FullPhase(s, h, cores, Apply(u, Finish), RESET);
    }
    if t :| InBarrier(s, h, cores, t) && Enabled(t, Finish) && t.holder.pc.value == RESET {
      InBarrierKeepsStrayInv(s, h, cores, t);
      FullSyncMeansAllDistinct(cores, t.holder.pc.synced);
    }
  }

  lemma VulnerableIsFooled(s: State, h: Host, c: Core)
    requires Enabled(s, Acquire(h, [c])) && Vulnerable(s.net, h, c)
    ensures !AlwaysPublishes(s, h, [c])
  {
    AlwaysPublishesIff(s, h, [c]);
    assert c in [c];
  }

  /** Where no SET shows or travels, no core is vulnerable. */
  lemma QuiescentIsSafe(n: Net, h: Host, c: Core)
    requires Quiescent(n)
    ensures !Vulnerable(n, h, c)
  {
    forall l, i
      ensures !Overtakes(n, h, c, l, i, Flag(SET))
    {
      assert NoSet(n, l);
    }
  }

  /** What a barrier that is about to return has done. */
  lemma FinishedBarrier(s: State, h: Host, cores: seq<Core>, t: State)
    requires s.holder.Nobody? && InBarrier(s, h, cores, t) && Enabled(t, Finish) && t.holder.pc.value == RESET
    ensures (forall c :: c in cores ==> !Vulnerable(s.net, h, c)) ==> Published(s.net, t.net, h, cores)
    ensures !s.timedOut && Quiescent(s.net) ==> Quiescent(t.net) && Published(s.net, t.net, h, cores)
  {
    if forall c :: c in cores ==> !Vulnerable(s.net, h, c) {
      SafePublishes(s, h, cores, t);
    }
    if !s.timedOut && Quiescent(s.net) {
      forall c | c in cores
        ensures !Vulnerable(s.net, h, c)
      {
        QuiescentIsSafe(s.net, h, c);
      }
      InBarrierKeepsInv(s, h, cores, t);
      FinishedSweep(t.net, t.holder);
    }
  }

  /** A barrier over one core that shows RESET times out with its SET still travelling. */
  lemma StraySetAfterTimeout(s0: State, t: State, h: Host, c: Core) returns (s: State)
    requires Reaches(s0, t) && t.holder.Nobody? && c in t.net.flag && t.net.flag[c] == RESET
    ensures Reaches(s0, s) && s.holder.Nobody? && s.net == Post(t.net, Link(h, c), Flag(SET))
  {
    var t1 := Apply(t, Acquire(h, [c]));
    ReachesStep(s0, t, Acquire(h, [c]));
    var t2 := Apply(t1, WriteFlag);
    ReachesStep(s0, t1, WriteFlag);
    var t3 := Apply(t2, StartPoll);
    ReachesStep(s0, t2, StartPoll);
    s := Apply(t3, Timeout);
    ReachesStep(s0, t3, Timeout);
  }

  lemma StrayPairIsVulnerable(n: Net, h: Host, c: Core)
    requires Flag(RESET) in Flight(n, Link(h, c))
    ensures Vulnerable(Post(Post(n, Link(h + 1, c), Flag(SET)), Link(h + 2, c), Data(0)), h + 2, c)
  {
    var n1 := Post(n, Link(h + 1, c), Flag(SET));
    var n2 := Post(n1, Link(h + 2, c), Data(0));
    PostEffect(n, Link(h + 1, c), Flag(SET));
    PostEffect(n1, Link(h + 2, c), Data(0));
    var j: nat :| j < |Flight(n, Link(h, c))| && Flight(n, Link(h, c))[j] == Flag(RESET);
    assert SetThenReset(n2, h + 2, c, Link(h + 1, c), |Flight(n, Link(h + 1, c))|, Link(h, c), j);
  }

  /**
   One timeout is enough: from a start over a flag that already reads RESET, a run leads to
   a state in which some host's next barrier may return before its write has landed.
   */
  lemma TimeoutFoolsNextBarrier(s0: State, c: Core) returns (s: State, h: Host)
    requires Init(s0) && Distinct(s0.holder.cores) && c in s0.net.flag && s0.net.flag[c] == RESET
    ensures Reaches(s0, s) && Enabled(s, Acquire(h, [c])) && !AlwaysPublishes(s, h, [c])
  {
    h := s0.holder.host + 2;
    var t1 := StaleResetSurvivesStart(s0, c);
    var t2 := StraySetAfterTimeout(s0, t1, s0.holder.host + 1, c);
    s := Apply(t2, Issue(Link(h, c), 0));
    ReachesStep(s0, t2, Issue(Link(h, c), 0));
    StrayPairIsVulnerable(t1.net, s0.holder.host, c);
    VulnerableIsFooled(s, h, c);
  }
}
