/**
 The Blackhole ARC message queue as a protocol between many host callers, serialised by
 the ARC_MSG mutex, and the ARC firmware.  A host call pushes one request and then pops
 one response; any wait may time out.  The firmware takes requests in order and
 publishes the answer to the i-th request as its i-th response.
 */
module ArcQueueProtocol {
  import opened ArcRing

  const HEADER_LEN := 8

  const REQUEST_WPTR := 0
  const RESPONSE_RPTR := 1
  const REQUEST_RPTR := 4
  const RESPONSE_WPTR := 5

  /** `reply(i, e)` is what the firmware answers to the i-th request, e. */
  datatype Config = Config(n: nat, reply: (nat, Entry) -> Entry)

  function RequestLayout(n: nat): Layout {
    Layout(REQUEST_WPTR, REQUEST_RPTR, HEADER_LEN)
  }

  function ResponseLayout(n: nat): Layout {
    Layout(RESPONSE_WPTR, RESPONSE_RPTR, HEADER_LEN + n * ENTRY_LEN)
  }

  function QueueWords(n: nat): nat {
    HEADER_LEN + 2 * n * ENTRY_LEN
  }

  /** Where the mutex holder is inside `send_message`. */
  datatype Stage =
    | Free
    | Pushing(caller: nat, request: Entry)
    | Popping(caller: nat, request: Entry, pushedAt: nat)

  /** A finished call: its request was the `pushedAt`-th, its response the `poppedAt`-th. */
  datatype Return = Return(caller: nat, request: Entry, pushedAt: nat, poppedAt: nat, response: Entry)

  /** `orphans` counts the calls that pushed a request and timed out before popping. */
  datatype State = State(
    mem: seq<nat>, req: Ring, resp: Ring, stage: Stage, done: seq<Return>, orphans: nat)

  datatype Action =
    | Acquire(caller: nat, request: Entry)
    | PushMove(m: Move)
    | PopMove(m: Move)
    | TakeMove(m: Move)
    | AnswerMove(m: Move)

  predicate Sized(cfg: Config, s: State) {
    cfg.n > 0 && |s.mem| == QueueWords(cfg.n)
  }

  lemma LayoutsFit(n: nat)
    requires n > 0
    ensures LayoutFits(n, RequestLayout(n), QueueWords(n))
    ensures LayoutFits(n, ResponseLayout(n), QueueWords(n))
    ensures forall a :: Owns(n, RequestLayout(n), a) ==> !Owns(n, ResponseLayout(n), a)
  {
  }

  ghost predicate Init(cfg: Config, s: State) {
    && Sized(cfg, s)
    && s.mem[REQUEST_WPTR] == s.mem[REQUEST_RPTR] == s.mem[RESPONSE_WPTR] == s.mem[RESPONSE_RPTR] == 0
    && s.req == s.resp == Ring([], [], PIdle, CIdle)
    && s.stage == Free && s.done == [] && s.orphans == 0
  }

  ghost predicate ReqStep(cfg: Config, s: State, m: Move, s': State)
    requires Sized(cfg, s)
  {
    var lay := RequestLayout(cfg.n);
    && Enabled(cfg.n, lay, s.mem, s.req, m)
    && s'.mem == Memory(cfg.n, lay, s.mem, s.req, m)
    && s'.req == Agents(cfg.n, lay, s.mem, s.req, m)
    && s'.resp == s.resp
  }

  ghost predicate RespStep(cfg: Config, s: State, m: Move, s': State)
    requires Sized(cfg, s)
  {
    var lay := ResponseLayout(cfg.n);
    && Enabled(cfg.n, lay, s.mem, s.resp, m)
    && s'.mem == Memory(cfg.n, lay, s.mem, s.resp, m)
    && s'.resp == Agents(cfg.n, lay, s.mem, s.resp, m)
    && s'.req == s.req
  }

  ghost predicate SameCalls(s: State, s': State) {
    s'.stage == s.stage && s'.done == s.done && s'.orphans == s.orphans
  }

  /** One atomic access by the lock holder or by the firmware. */
  ghost predicate Next(cfg: Config, s: State, a: Action, s': State)
    requires Sized(cfg, s)
  {
    match a
    case Acquire(c, e) =>
      && s.stage.Free?
      && ReqStep(cfg, s, ProdStart(e), s')
      && s'.stage == Pushing(c, e) && s'.done == s.done && s'.orphans == s.orphans
    case PushMove(m) =>
      && s.stage.Pushing?
      && (m.ProdPoll? || m.ProdAbort? || m.ProdWord? || m.ProdPublish?)
      && ReqStep(cfg, s, m, s')
      && s'.done == s.done && s'.orphans == s.orphans
      && s'.stage == (if m.ProdAbort? then Free
                      else if m.ProdPublish? then Popping(s.stage.caller, s.stage.request, |s.req.sent|)
                      else s.stage)
    case PopMove(m) =>
      && s.stage.Popping?
      && (m.ConsStart? || m.ConsPoll? || m.ConsAbort? || m.ConsWord? || m.ConsPublish?)
      && RespStep(cfg, s, m, s')
      && s'.stage == (if m.ConsAbort? || m.ConsPublish? then Free else s.stage)
      && s'.orphans == s.orphans + (if m.ConsAbort? then 1 else 0)
      && s'.done == (if m.ConsPublish?
                        then s.done + [Return(s.stage.caller, s.stage.request, s.stage.pushedAt,
                                                 |s.resp.got|, s.resp.cons.buf)]
                        else s.done)
    case TakeMove(m) =>
      && (m.ConsStart? || m.ConsPoll? || m.ConsAbort? || m.ConsWord? || m.ConsPublish?)
      && ReqStep(cfg, s, m, s')
      && SameCalls(s, s')
    case AnswerMove(m) =>
      && (m.ProdStart? || m.ProdPoll? || m.ProdAbort? || m.ProdWord? || m.ProdPublish?)
      && (m.ProdStart? ==> && |s.resp.sent| < |s.req.got|
                           && m.entry == cfg.reply(|s.resp.sent|, s.req.got[|s.resp.sent|]))
      && RespStep(cfg, s, m, s')
      && SameCalls(s, s')
  }

  /** The i-th response published is the answer to the i-th request published. */
  ghost predicate AnswersInv(cfg: Config, s: State) {
    && |s.resp.sent| <= |s.req.got| <= |s.req.sent|
    && s.req.got == s.req.sent[..|s.req.got|]
    && (forall i :: 0 <= i < |s.resp.sent| ==> s.resp.sent[i] == cfg.reply(i, s.req.sent[i]))
    && (!s.resp.prod.PIdle? ==>
          && |s.resp.sent| < |s.req.got|
          && s.resp.prod.entry == cfg.reply(|s.resp.sent|, s.req.got[|s.resp.sent|]))
  }

  /** Requests published and responses popped differ by the orphans and the call under way. */
  ghost predicate StageInv(s: State) {
    match s.stage
    case Free =>
      && s.req.prod.PIdle? && s.resp.cons.CIdle?
      && |s.req.sent| == |s.resp.got| + s.orphans
    case Pushing(_, e) =>
      && !s.req.prod.PIdle? && s.req.prod.entry == e && s.resp.cons.CIdle?
      && |s.req.sent| == |s.resp.got| + s.orphans
    case Popping(_, e, i) =>
      && s.req.prod.PIdle?
      && |s.req.sent| == |s.resp.got| + s.orphans + 1
      && i == |s.req.sent| - 1 && s.req.sent[i] == e
  }

  /** What a finished call knows: the answer it got is that of the request `poppedAt`. */
  ghost predicate ReturnOk(cfg: Config, sent: seq<Entry>, r: Return) {
    && r.poppedAt <= r.pushedAt < |sent|
    && sent[r.pushedAt] == r.request
    && r.response == cfg.reply(r.poppedAt, sent[r.poppedAt])
  }

  ghost predicate ReturnsInv(cfg: Config, s: State) {
    forall k :: 0 <= k < |s.done| ==>
      && ReturnOk(cfg, s.req.sent, s.done[k])
      && s.done[k].pushedAt - s.done[k].poppedAt <= s.orphans
  }

  ghost predicate Inv(cfg: Config, s: State) {
    && Sized(cfg, s)
    && RingInv(cfg.n, RequestLayout(cfg.n), s.mem, s.req)
    && RingInv(cfg.n, ResponseLayout(cfg.n), s.mem, s.resp)
    && AnswersInv(cfg, s)
    && StageInv(s)
    && ReturnsInv(cfg, s)
  }

  lemma RingsStepKeep(cfg: Config, s: State, a: Action, s': State)
    requires Inv(cfg, s) && Next(cfg, s, a, s')
    ensures Sized(cfg, s')
    ensures RingInv(cfg.n, RequestLayout(cfg.n), s'.mem, s'.req)
    ensures RingInv(cfg.n, ResponseLayout(cfg.n), s'.mem, s'.resp)
  {
    var n := cfg.n;
    var rq, rs := RequestLayout(n), ResponseLayout(n);
    LayoutsFit(n);
    if a.Acquire? || a.PushMove? || a.TakeMove? {
      var m := if a.Acquire? then ProdStart(a.request) else a.m;
      RingStepKeeps(n, rq, s.mem, s.req, m);
      RingInvFrame(n, rs, s.mem, s'.mem, s.resp);
    } else {
      RingStepKeeps(n, rs, s.mem, s.resp, a.m);
      RingInvFrame(n, rq, s.mem, s'.mem, s.req);
    }
  }

  lemma AnswersStepKeep(cfg: Config, s: State, a: Action, s': State)
    requires Inv(cfg, s) && Next(cfg, s, a, s')
    requires |s'.req.got| <= |s'.req.sent| && s'.req.got == s'.req.sent[..|s'.req.got|]
    ensures AnswersInv(cfg, s')
  {
    assert s.req.sent <= s'.req.sent && s.req.got <= s'.req.got && s.resp.sent <= s'.resp.sent;
  }

  lemma StageStepKeep(cfg: Config, s: State, a: Action, s': State)
    requires Inv(cfg, s) && Next(cfg, s, a, s')
    ensures StageInv(s')
  {
  }

  lemma ReturnsStepKeep(cfg: Config, s: State, a: Action, s': State)
    requires Inv(cfg, s) && Next(cfg, s, a, s')
    ensures ReturnsInv(cfg, s')
  {
    assert s.req.sent <= s'.req.sent;
    forall k | 0 <= k < |s'.done|
      ensures ReturnOk(cfg, s'.req.sent, s'.done[k])
      ensures s'.done[k].pushedAt - s'.done[k].poppedAt <= s'.orphans
    {
      if k < |s.done| {
        assert s'.done[k] == s.done[k];
      } else {
        assert s.resp.cons.buf == s.resp.sent[|s.resp.got|];
      }
    }
  }

  /** Every step of every interleaving keeps the protocol invariant. */
  lemma StepKeepsInv(cfg: Config, s: State, a: Action, s': State)
    requires Inv(cfg, s) && Next(cfg, s, a, s')
    ensures Inv(cfg, s')
  {
    RingsStepKeep(cfg, s, a, s');
    AnswersStepKeep(cfg, s, a, s');
    StageStepKeep(cfg, s, a, s');
    ReturnsStepKeep(cfg, s, a, s');
  }

  ghost predicate IsRun(cfg: Config, run: seq<State>, acts: seq<Action>) {
    && |run| == |acts| + 1
    && Init(cfg, run[0])
    && (forall i :: 0 <= i < |acts| ==> Sized(cfg, run[i]) && Next(cfg, run[i], acts[i], run[i + 1]))
  }

  lemma {:induction false} RunKeepsInv(cfg: Config, run: seq<State>, acts: seq<Action>, i: nat)
    requires IsRun(cfg, run, acts) && i < |run|
    ensures Inv(cfg, run[i])
  {
    if i == 0 {
      LayoutsFit(cfg.n);
    } else {
      RunKeepsInv(cfg, run, acts, i - 1);
      StepKeepsInv(cfg, run[i - 1], acts[i - 1], run[i]);
    }
  }
}
