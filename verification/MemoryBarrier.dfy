/**
 Host-to-device memory barriers.  Hosts post writes that travel in order per host and
 core; a barrier, serialised across hosts by the MEM_BARRIER mutex, writes SET to one
 flag word per core, polls until every flag reads SET, then does the same with RESET.
 */
module MemoryBarrier {
  import opened Sequences

  type Core = nat
  type Host = nat

  const SET := 0xaa
  const RESET := 0xbb

  datatype Write = Data(id: nat) | Flag(value: nat)

  /** Where `set_membar_flag` is: writing core `i` next, or polling at position `pos` of a sweep. */
  datatype Pc = Writing(value: nat, i: nat) | Polling(value: nat, pos: nat, synced: set<Core>)

  datatype Link = Link(host: Host, core: Core)

  /** The mutex holder; `before` is what it had issued to each core when it took the mutex. */
  datatype Holder = Nobody | Barrier(host: Host, cores: seq<Core>, pc: Pc, before: map<Core, seq<Write>>)

  /** Flag words on the cores, posted writes oldest first, and the writes that arrived. */
  datatype Net = Net(flag: map<Core, nat>, flight: map<Link, seq<Write>>, landed: map<Link, seq<Write>>)

  datatype State = State(net: Net, holder: Holder, timedOut: bool)

  datatype Action =
    | Issue(l: Link, id: nat)
    | Deliver(l: Link)
    | Acquire(host: Host, cores: seq<Core>)
    | WriteFlag
    | StartPoll
    | Poll
    | Timeout
    | EndSweep
    | Finish

  function Flight(s: Net, l: Link): seq<Write> {
    if l in s.flight then s.flight[l] else []
  }

  function Landed(s: Net, l: Link): seq<Write> {
    if l in s.landed then s.landed[l] else []
  }

  /** Everything ever posted on a link, in order. */
  function Issued(s: Net, l: Link): seq<Write> {
    Landed(s, l) + Flight(s, l)
  }

  /** What a host has issued to each of the given cores so far. */
  function Snapshot(s: Net, h: Host, cores: seq<Core>): map<Core, seq<Write>> {
    map c | c in cores :: Issued(s, Link(h, c))
  }

  function Post(s: Net, l: Link, w: Write): Net {
    s.(flight := s.flight[l := Flight(s, l) + [w]])
  }

  function Arrive(s: Net, l: Link): Net
    requires Flight(s, l) != []
  {
    var w := Flight(s, l)[0];
    var s1 := s.(flight := s.flight[l := Flight(s, l)[1..]], landed := s.landed[l := Landed(s, l) + [w]]);
    if w.Flag? then s1.(flag := s1.flag[l.core := w.value]) else s1
  }

  predicate Polled(s: State) {
    && s.holder.Barrier? && s.holder.pc.Polling?
    && s.holder.pc.pos < |s.holder.cores| && s.holder.cores[s.holder.pc.pos] in s.net.flag
    && (s.holder.pc.pos == 0 ==> |s.holder.pc.synced| != |s.holder.cores|)
  }

  predicate Enabled(s: State, a: Action) {
    match a
    case Issue(l, _) => l.core in s.net.flag
    case Deliver(l) => Flight(s.net, l) != []
    case Acquire(_, cores) => s.holder.Nobody? && forall c :: c in cores ==> c in s.net.flag
    case WriteFlag => s.holder.Barrier? && s.holder.pc.Writing? && s.holder.pc.i < |s.holder.cores|
    case StartPoll => s.holder.Barrier? && s.holder.pc.Writing? && s.holder.pc.i == |s.holder.cores|
    case Poll => Polled(s)
    case Timeout =>
      && Polled(s)
      && var c := s.holder.cores[s.holder.pc.pos];
         c !in s.holder.pc.synced && s.net.flag[c] != s.holder.pc.value
    case EndSweep =>
      s.holder.Barrier? && s.holder.pc.Polling? && s.holder.pc.pos == |s.holder.cores| > 0
    case Finish =>
      && s.holder.Barrier? && s.holder.pc.Polling? && s.holder.pc.pos == 0
      && |s.holder.pc.synced| == |s.holder.cores|
  }

  function Apply(s: State, a: Action): State
    requires Enabled(s, a)
  {
    var b := s.holder;
    match a
    case Issue(l, id) => s.(net := Post(s.net, l, Data(id)))
    case Deliver(l) => s.(net := Arrive(s.net, l))
    case Acquire(h, cores) =>
      s.(holder := Barrier(h, cores, Writing(SET, 0), Snapshot(s.net, h, cores)))
    case WriteFlag =>
      s.(net := Post(s.net, Link(b.host, b.cores[b.pc.i]), Flag(b.pc.value)),
         holder := b.(pc := Writing(b.pc.value, b.pc.i + 1)))
    case StartPoll => s.(holder := b.(pc := Polling(b.pc.value, 0, {})))
    case Poll =>
      var c := b.cores[b.pc.pos];
      var synced := if s.net.flag[c] == b.pc.value then b.pc.synced + {c} else b.pc.synced;
      s.(holder := b.(pc := Polling(b.pc.value, b.pc.pos + 1, if c in b.pc.synced then b.pc.synced else synced)))
    case Timeout => s.(holder := Nobody, timedOut := true)
    case EndSweep => s.(holder := b.(pc := Polling(b.pc.value, 0, b.pc.synced)))
    case Finish =>
      if b.pc.value == SET then s.(holder := b.(pc := Writing(RESET, 0)))
      else s.(holder := Nobody)
  }

  ghost function SetOf(cores: seq<Core>): set<Core> {
    set c | c in cores
  }

  lemma {:induction false} SetOfSize(cores: seq<Core>)
    ensures |SetOf(cores)| <= |cores|
    ensures |SetOf(cores)| == |cores| ==> Distinct(cores)
  {
    if cores == [] {
      assert SetOf(cores) == {};
    } else {
      var last := cores[|cores| - 1];
      var rest := cores[..|cores| - 1];
      SetOfSize(rest);
      assert SetOf(cores) == SetOf(rest) + {last};
      if last !in rest {
        assert |SetOf(cores)| == |SetOf(rest)| + 1;
      }
    }
  }

  lemma {:induction false} DistinctSize(cores: seq<Core>)
    requires Distinct(cores)
    ensures |SetOf(cores)| == |cores|
  {
    if cores == [] {
      assert SetOf(cores) == {};
    } else {
      var last, rest := cores[|cores| - 1], cores[..|cores| - 1];
      DistinctSize(rest);
      assert SetOf(cores) == SetOf(rest) + {last};
      assert last !in SetOf(rest);
    }
  }

  /** A subset of the cores as large as the list is all of them, and the list has no repeats. */
  lemma FullSyncMeansAllDistinct(cores: seq<Core>, synced: set<Core>)
    requires synced <= SetOf(cores) && |synced| == |cores|
    ensures Distinct(cores) && synced == SetOf(cores)
  {
    SetOfSize(cores);
    var rest := SetOf(cores) - synced;
    assert SetOf(cores) == synced + rest;
    assert |SetOf(cores)| == |synced| + |rest|;
  }

  ghost predicate NoSet(s: Net, l: Link) {
    Flag(SET) !in Flight(s, l)
  }

  ghost predicate AtMostOneSet(ws: seq<Write>) {
    forall j, k :: 0 <= j < k < |ws| ==> ws[j] != Flag(SET) || ws[k] != Flag(SET)
  }

  ghost predicate PcOk(s: Net, b: Holder)
    requires b.Barrier?
  {
    && (forall c :: c in b.cores ==> c in s.flag)
    && b.before.Keys == SetOf(b.cores)
    && (b.pc.value == SET || b.pc.value == RESET)
    && (b.pc.Writing? ==> b.pc.i <= |b.cores|)
    && (b.pc.Polling? ==> b.pc.pos <= |b.cores| && b.pc.synced <= SetOf(b.cores))
  }

  /** No other link carries a SET, and no other core shows one. */
  ghost predicate SetsAreTheHolders(s: Net, b: Holder)
    requires b.Barrier?
  {
    && (forall l: Link :: l.host != b.host || l.core !in b.cores ==> NoSet(s, l))
    && (forall c :: c in s.flag && c !in b.cores ==> s.flag[c] != SET)
  }

  /** A SET on this link lies behind everything in `before`. */
  ghost predicate SetBehindEarlierWrites(s: Net, l: Link, before: seq<Write>)
    requires l.core in s.flag
  {
    && before <= Issued(s, l)
    && (forall k :: 0 <= k < |Flight(s, l)| && Flight(s, l)[k] == Flag(SET) ==> |before| <= |Landed(s, l)| + k)
    && (s.flag[l.core] == SET ==> |before| <= |Landed(s, l)|)
  }

  /** With distinct cores each core gets one SET: once it shows, none is left in flight. */
  ghost predicate SetAppearsOnce(s: Net, l: Link)
    requires l.core in s.flag
  {
    && AtMostOneSet(Flight(s, l))
    && (s.flag[l.core] == SET ==> NoSet(s, l))
  }

  ghost predicate SetPhase(s: Net, b: Holder)
    requires b.Barrier? && PcOk(s, b)
  {
    && (forall c :: c in b.cores ==> SetBehindEarlierWrites(s, Link(b.host, c), b.before[c]))
    && (Distinct(b.cores) ==> forall c :: c in b.cores ==> SetAppearsOnce(s, Link(b.host, c)))
    && (b.pc.Writing? && Distinct(b.cores) ==>
          forall i :: b.pc.i <= i < |b.cores| ==> NoSet(s, Link(b.host, b.cores[i])) && s.flag[b.cores[i]] != SET)
    && (b.pc.Polling? ==>
          forall c :: c in b.pc.synced ==>
            && |b.before[c]| <= |Landed(s, Link(b.host, c))|
            && (Distinct(b.cores) ==> NoSet(s, Link(b.host, c))))
  }

  ghost predicate ResetPhase(s: Net, b: Holder)
    requires b.Barrier? && PcOk(s, b)
  {
    && (forall l :: NoSet(s, l))
    && (forall c :: c in b.cores ==> b.before[c] <= Landed(s, Link(b.host, c)))
    && (b.pc.Polling? ==> forall c :: c in b.pc.synced ==> s.flag[c] != SET)
  }

  /** Between barriers no SET shows or travels; inside one, only the holder's. */
  ghost predicate Quiescent(s: Net) {
    (forall l :: NoSet(s, l)) && forall c :: c in s.flag ==> s.flag[c] != SET
  }

  ghost predicate HolderInv(s: Net, b: Holder)
    requires b.Barrier?
  {
    && PcOk(s, b) && SetsAreTheHolders(s, b)
    && (b.pc.value == SET ==> SetPhase(s, b))
    && (b.pc.value == RESET ==> ResetPhase(s, b))
  }

  ghost predicate Inv(s: State) {
    !s.timedOut ==> if s.holder.Nobody? then Quiescent(s.net) else HolderInv(s.net, s.holder)
  }

  /**
   The driver starts by writing RESET to every core and polling for it, over flags that
   may hold anything, SET included.
   */
  ghost predicate Init(s: State) {
    && !s.timedOut
    && s.holder.Barrier? && s.holder.pc == Writing(RESET, 0)
    && SetOf(s.holder.cores) == s.net.flag.Keys
    && s.holder.before == (map c | c in s.holder.cores :: [])
    && (forall l, w :: w in Flight(s.net, l) ==> w.Data?)
  }

  lemma PostEffect(s: Net, l: Link, w: Write)
    ensures var s' := Post(s, l, w);
            && Flight(s', l) == Flight(s, l) + [w]
            && (forall m :: m != l ==> Flight(s', m) == Flight(s, m))
            && (forall m :: Landed(s', m) == Landed(s, m))
            && Issued(s', l) == Issued(s, l) + [w]
  {
  }

  lemma ArriveEffect(s: Net, l: Link)
    requires Flight(s, l) != []
    ensures var s' := Arrive(s, l);
            && Flight(s', l) == Flight(s, l)[1..]
            && Landed(s', l) == Landed(s, l) + [Flight(s, l)[0]]
            && (forall m :: m != l ==> Flight(s', m) == Flight(s, m) && Landed(s', m) == Landed(s, m))
            && (forall m :: Issued(s', m) == Issued(s, m))
            && (forall c :: c in s.flag ==> c in s'.flag)
            && (forall c :: c in s.flag && c != l.core ==> s'.flag[c] == s.flag[c])
  {
    var s' := Arrive(s, l);
    assert Flight(s, l) == [Flight(s, l)[0]] + Flight(s, l)[1..];
    assert Issued(s', l) == Issued(s, l);
  }

  lemma PostKeepsNoSet(s: Net, l: Link, w: Write, m: Link)
    requires w != Flag(SET) && NoSet(s, m)
    ensures NoSet(Post(s, l, w), m)
  {
    PostEffect(s, l, w);
  }

  /** Posting anything, a SET included, keeps the order fact. */
  lemma PostKeepsOrder(s: Net, l: Link, w: Write, m: Link, before: seq<Write>)
    requires m.core in s.flag && SetBehindEarlierWrites(s, m, before)
    ensures SetBehindEarlierWrites(Post(s, l, w), m, before)
  {
    PostEffect(s, l, w);
    assert |Issued(s, m)| == |Landed(s, m)| + |Flight(s, m)|;
    if m == l {
      assert before <= Issued(s, m) <= Issued(Post(s, l, w), m);
    }
  }

  lemma PostKeepsOnce(s: Net, l: Link, w: Write, m: Link)
    requires m.core in s.flag && SetAppearsOnce(s, m)
    requires w == Flag(SET) && l == m ==> NoSet(s, l) && s.flag[m.core] != SET
    ensures SetAppearsOnce(Post(s, l, w), m)
  {
    PostEffect(s, l, w);
  }

  lemma PostKeepsHolders(s: Net, l: Link, w: Write, b: Holder)
    requires b.Barrier? && SetsAreTheHolders(s, b)
    requires w == Flag(SET) ==> l.host == b.host && l.core in b.cores
    ensures SetsAreTheHolders(Post(s, l, w), b)
  {
    PostEffect(s, l, w);
    forall m: Link | m.host != b.host || m.core !in b.cores
      ensures NoSet(Post(s, l, w), m)
    {
      assert NoSet(s, m);
    }
  }

  /** Posting anything but a second SET for a core. */
  lemma PostKeepsPerCore(s: Net, l: Link, w: Write, b: Holder, c: Core)
    requires b.Barrier? && PcOk(s, b) && SetPhase(s, b) && c in b.cores
    requires w == Flag(SET) && l == Link(b.host, c) && Distinct(b.cores) ==> NoSet(s, l) && s.flag[c] != SET
    ensures var s' := Post(s, l, w);
            && SetBehindEarlierWrites(s', Link(b.host, c), b.before[c])
            && (Distinct(b.cores) ==> SetAppearsOnce(s', Link(b.host, c)))
  {
    PostKeepsOrder(s, l, w, Link(b.host, c), b.before[c]);
    if Distinct(b.cores) {
      PostKeepsOnce(s, l, w, Link(b.host, c));
    }
  }

  /** Posting a write that is not a SET. */
  lemma PostKeepsHolderInv(s: Net, l: Link, w: Write, b: Holder)
    requires b.Barrier? && HolderInv(s, b) && w != Flag(SET)
    ensures HolderInv(Post(s, l, w), b)
  {
    var s' := Post(s, l, w);
    PostEffect(s, l, w);
    PostKeepsHolders(s, l, w, b);
    forall m | NoSet(s, m)
      ensures NoSet(s', m)
    {
      PostKeepsNoSet(s, l, w, m);
    }
    if b.pc.value == SET {
      forall c | c in b.cores
        ensures SetBehindEarlierWrites(s', Link(b.host, c), b.before[c])
        ensures Distinct(b.cores) ==> SetAppearsOnce(s', Link(b.host, c))
      {
        PostKeepsPerCore(s, l, w, b, c);
      }
    }
  }

  lemma PostKeepsQuiescent(s: Net, l: Link, w: Write)
    requires Quiescent(s) && w != Flag(SET)
    ensures Quiescent(Post(s, l, w))
  {
    forall m
      ensures NoSet(Post(s, l, w), m)
    {
      PostKeepsNoSet(s, l, w, m);
    }
  }

  lemma ArriveKeepsNoSet(s: Net, l: Link, m: Link)
    requires Flight(s, l) != [] && NoSet(s, m)
    ensures NoSet(Arrive(s, l), m)
  {
    ArriveEffect(s, l);
  }

  /** A flag that shows no SET cannot start to unless a SET arrives for it. */
  lemma ArriveKeepsFlagClear(s: Net, l: Link, c: Core)
    requires Flight(s, l) != [] && (c in s.flag ==> s.flag[c] != SET) && c in Arrive(s, l).flag
    requires l.core == c ==> Flight(s, l)[0] != Flag(SET)
    ensures Arrive(s, l).flag[c] != SET
  {
  }

  lemma ArriveKeepsOrder(s: Net, l: Link, m: Link, before: seq<Write>)
    requires Flight(s, l) != [] && m.core in s.flag && SetBehindEarlierWrites(s, m, before)
    requires l != m && l.core == m.core ==> NoSet(s, l)
    ensures SetBehindEarlierWrites(Arrive(s, l), m, before)
  {
    ArriveEffect(s, l);
    var s' := Arrive(s, l);
    if m == l {
      forall k | 0 <= k < |Flight(s', m)| && Flight(s', m)[k] == Flag(SET)
        ensures |before| <= |Landed(s', m)| + k
      {
        assert Flight(s, m)[k + 1] == Flag(SET);
      }
    }
  }

  lemma ArriveKeepsOnce(s: Net, l: Link, m: Link)
    requires Flight(s, l) != [] && m.core in s.flag && SetAppearsOnce(s, m)
    requires l != m && l.core == m.core ==> NoSet(s, l)
    ensures SetAppearsOnce(Arrive(s, l), m)
  {
    ArriveEffect(s, l);
    var s' := Arrive(s, l);
    if m == l && Flight(s, l)[0] == Flag(SET) {
      forall k | 0 <= k < |Flight(s', m)|
        ensures Flight(s', m)[k] != Flag(SET)
      {
        assert Flight(s', m)[k] == Flight(s, m)[k + 1];
      }
    }
  }

  lemma ArriveKeepsHolders(s: Net, l: Link, b: Holder)
    requires Flight(s, l) != [] && b.Barrier? && SetsAreTheHolders(s, b)
    ensures SetsAreTheHolders(Arrive(s, l), b)
  {
    var s' := Arrive(s, l);
    forall m: Link | m.host != b.host || m.core !in b.cores
      ensures NoSet(s', m)
    {
      ArriveKeepsNoSet(s, l, m);
    }
    forall c | c in s'.flag && c !in b.cores
      ensures s'.flag[c] != SET
    {
      assert l.core == c ==> NoSet(s, l);
      ArriveKeepsFlagClear(s, l, c);
    }
  }

  lemma ArriveKeepsSetPhase(s: Net, l: Link, b: Holder)
    requires Flight(s, l) != [] && b.Barrier? && PcOk(s, b) && SetsAreTheHolders(s, b) && SetPhase(s, b)
    ensures PcOk(Arrive(s, l), b) && SetPhase(Arrive(s, l), b)
  {
    var s' := Arrive(s, l);
    ArriveEffect(s, l);
    forall c | c in b.cores
      ensures SetBehindEarlierWrites(s', Link(b.host, c), b.before[c])
      ensures Distinct(b.cores) ==> SetAppearsOnce(s', Link(b.host, c))
    {
      ArriveKeepsOrder(s, l, Link(b.host, c), b.before[c]);
      if Distinct(b.cores) {
        ArriveKeepsOnce(s, l, Link(b.host, c));
      }
    }
    if b.pc.Writing? && Distinct(b.cores) {
      forall i | b.pc.i <= i < |b.cores|
        ensures NoSet(s', Link(b.host, b.cores[i])) && s'.flag[b.cores[i]] != SET
      {
        ArriveKeepsNoSet(s, l, Link(b.host, b.cores[i]));
        assert l == Link(b.host, b.cores[i]) || l.core != b.cores[i] || NoSet(s, l);
        ArriveKeepsFlagClear(s, l, b.cores[i]);
      }
    }
    if b.pc.Polling? {
      forall c | c in b.pc.synced
        ensures |b.before[c]| <= |Landed(s', Link(b.host, c))|
        ensures Distinct(b.cores) ==> NoSet(s', Link(b.host, c))
      {
        if Distinct(b.cores) {
          ArriveKeepsNoSet(s, l, Link(b.host, c));
        }
      }
    }
  }

  lemma ArriveKeepsResetPhase(s: Net, l: Link, b: Holder)
    requires Flight(s, l) != [] && b.Barrier? && PcOk(s, b) && ResetPhase(s, b)
    ensures PcOk(Arrive(s, l), b) && ResetPhase(Arrive(s, l), b)
  {
    var s' := Arrive(s, l);
    ArriveEffect(s, l);
    forall m
      ensures NoSet(s', m)
    {
      ArriveKeepsNoSet(s, l, m);
    }
    if b.pc.Polling? {
      forall c | c in b.pc.synced
        ensures s'.flag[c] != SET
      {
        assert NoSet(s, l);
        ArriveKeepsFlagClear(s, l, c);
      }
    }
  }

  lemma ArriveKeepsQuiescent(s: Net, l: Link)
    requires Quiescent(s) && Flight(s, l) != []
    ensures Quiescent(Arrive(s, l))
  {
    var s' := Arrive(s, l);
    forall m
      ensures NoSet(s', m)
    {
      ArriveKeepsNoSet(s, l, m);
    }
    forall c | c in s'.flag
      ensures s'.flag[c] != SET
    {
      assert NoSet(s, l);
      ArriveKeepsFlagClear(s, l, c);
    }
  }

  lemma WriteSetLeavesRestClear(s: Net, b: Holder, l: Link)
    requires b.Barrier? && PcOk(s, b) && SetPhase(s, b) && b.pc.Writing? && b.pc.i < |b.cores| && Distinct(b.cores)
    requires l == Link(b.host, b.cores[b.pc.i])
    ensures forall i :: b.pc.i < i < |b.cores| ==>
              && NoSet(Post(s, l, Flag(SET)), Link(b.host, b.cores[i]))
              && Post(s, l, Flag(SET)).flag[b.cores[i]] != SET
  {
    PostEffect(s, l, Flag(SET));
    forall i | b.pc.i < i < |b.cores|
      ensures NoSet(Post(s, l, Flag(SET)), Link(b.host, b.cores[i]))
    {
      assert NoSet(s, Link(b.host, b.cores[i]));
    }
  }

  lemma WriteSetKeepsPhase(s: Net, b: Holder, l: Link)
    requires b.Barrier? && PcOk(s, b) && SetPhase(s, b) && b.pc.Writing? && b.pc.i < |b.cores|
    requires l == Link(b.host, b.cores[b.pc.i])
    ensures forall c :: c in b.cores ==>
              && SetBehindEarlierWrites(Post(s, l, Flag(SET)), Link(b.host, c), b.before[c])
              && (Distinct(b.cores) ==> SetAppearsOnce(Post(s, l, Flag(SET)), Link(b.host, c)))
  {
    assert Distinct(b.cores) ==> NoSet(s, l) && s.flag[l.core] != SET;
    forall c | c in b.cores
      ensures SetBehindEarlierWrites(Post(s, l, Flag(SET)), Link(b.host, c), b.before[c])
      ensures Distinct(b.cores) ==> SetAppearsOnce(Post(s, l, Flag(SET)), Link(b.host, c))
    {
      PostKeepsPerCore(s, l, Flag(SET), b, c);
    }
  }

  lemma WriteSetKeepsInv(s: Net, b: Holder)
    requires b.Barrier? && HolderInv(s, b) && b.pc.Writing? && b.pc.value == SET && b.pc.i < |b.cores|
    ensures HolderInv(Post(s, Link(b.host, b.cores[b.pc.i]), Flag(SET)), b.(pc := Writing(SET, b.pc.i + 1)))
  {
    var l := Link(b.host, b.cores[b.pc.i]);
    PostKeepsHolders(s, l, Flag(SET), b);
    WriteSetKeepsPhase(s, b, l);
    if Distinct(b.cores) {
      WriteSetLeavesRestClear(s, b, l);
    }
  }

  lemma PollKeepsInv(s: Net, b: Holder, synced: set<Core>, pos: nat)
    requires b.Barrier? && HolderInv(s, b) && b.pc.Polling? && b.pc.pos < |b.cores| && pos <= |b.cores|
    requires synced <= b.pc.synced + (if s.flag[b.cores[b.pc.pos]] == b.pc.value then {b.cores[b.pc.pos]} else {})
    ensures HolderInv(s, b.(pc := Polling(b.pc.value, pos, synced)))
  {
    assert b.cores[b.pc.pos] in SetOf(b.cores);
  }

  /** Every core of a finished sweep has shown the value that was polled for. */
  lemma FinishedSweep(s: Net, b: Holder)
    requires b.Barrier? && HolderInv(s, b) && b.pc.Polling? && |b.pc.synced| == |b.cores|
    ensures Distinct(b.cores)
    ensures forall c :: c in b.cores ==> c in b.before && b.before[c] <= Landed(s, Link(b.host, c))
    ensures b.pc.value == SET ==> HolderInv(s, b.(pc := Writing(RESET, 0)))
    ensures b.pc.value == RESET ==> Quiescent(s)
  {
    FullSyncMeansAllDistinct(b.cores, b.pc.synced);
    if b.pc.value == SET {
      forall c | c in b.cores
        ensures b.before[c] <= Landed(s, Link(b.host, c))
      {
        assert c in b.pc.synced;
      }
      forall l
        ensures NoSet(s, l)
      {
        if l.host == b.host && l.core in b.cores {
          assert l.core in b.pc.synced && l == Link(b.host, l.core);
        }
      }
    } else {
      forall c | c in s.flag
        ensures s.flag[c] != SET
      {
        if c in b.cores {
          assert c in b.pc.synced;
        }
      }
    }
  }

  lemma AcquireStartsInv(s: Net, h: Host, cores: seq<Core>)
    requires Quiescent(s) && forall c :: c in cores ==> c in s.flag
    ensures HolderInv(s, Barrier(h, cores, Writing(SET, 0), Snapshot(s, h, cores)))
  {
    var b := Barrier(h, cores, Writing(SET, 0), Snapshot(s, h, cores));
    forall c | c in cores
      ensures SetBehindEarlierWrites(s, Link(b.host, c), b.before[c]) && SetAppearsOnce(s, Link(b.host, c))
    {
      assert NoSet(s, Link(h, c));
    }
    forall i | 0 <= i < |cores|
      ensures NoSet(s, Link(h, cores[i])) && s.flag[cores[i]] != SET
    {
      assert cores[i] in cores;
    }
  }

  /** Every step of every host and of the interconnect keeps the invariant. */
  lemma StepKeepsInv(s: State, a: Action)
    requires Inv(s) && Enabled(s, a)
    ensures Inv(Apply(s, a))
  {
    var n, b := s.net, s.holder;
    if s.timedOut {
      return;
    }
    match a
    case Issue(l, id) =>
      if b.Nobody? {
        PostKeepsQuiescent(n, l, Data(id));
      } else {
        PostKeepsHolderInv(n, l, Data(id), b);
      }
    case Deliver(l) =>
      if b.Nobody? {
        ArriveKeepsQuiescent(n, l);
      } else {
        ArriveKeepsHolders(n, l, b);
        if b.pc.value == SET {
          ArriveKeepsSetPhase(n, l, b);
        } else {
          ArriveKeepsResetPhase(n, l, b);
        }
      }
    case Acquire(h, cores) => AcquireStartsInv(n, h, cores);
    case WriteFlag =>
      if b.pc.value == SET {
        WriteSetKeepsInv(n, b);
      } else {
        PostKeepsHolderInv(n, Link(b.host, b.cores[b.pc.i]), Flag(RESET), b);
      }
    case StartPoll =>
    case Poll => PollKeepsInv(n, b, Apply(s, a).holder.pc.synced, b.pc.pos + 1);
    case EndSweep =>
    case Finish => FinishedSweep(n, b);
    case Timeout =>
  }
}
