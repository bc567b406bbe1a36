/**
 The host side of the Blackhole ARC message queue as the driver runs it: statements over
 the shared words, with the firmware free to run between any two of them.  Every shared
 access is one step of the protocol, so the contracts below hold under interference.
 */
module ArcMessageQueue {
  import opened Modular
  import opened ArcRing
  import opened ArcQueueProtocol

  const RESPONSE_OK_LIMIT := 240
  const MAX_ARGS := 7

  datatype Reply = Reply(exitCode: nat, values: seq<nat>)

  datatype Outcome =
    | Sent(reply: Reply)
    | TooManyArguments
    | PushTimeout
    | PopTimeout
    | NotRecognized(values: seq<nat>)
    | UnknownError(status: nat, values: seq<nat>)

  /** Message type first, then the arguments, then zeros. */
  function PackRequest(messageType: nat, args: seq<nat>): (e: Entry)
    requires |args| <= MAX_ARGS
    ensures e[0] == messageType && e[1..|args| + 1] == args
    ensures forall i :: |args| < i < ENTRY_LEN ==> e[i] == 0
  {
    [messageType] + args + seq(MAX_ARGS - |args|, _ => 0)
  }

  /** How `send_message` reads a response entry. */
  function DecodeResponse(e: Entry): Outcome {
    var status := e[0] % 0x100;
    if status < RESPONSE_OK_LIMIT then Sent(Reply(e[0] / 0x1_0000, e[1..]))
    else if status == 0xFF then NotRecognized(e[1..])
    else UnknownError(status, e[1..])
  }

  /** A response word: exit code, message id and status byte. */
  function ResponseWord(exitCode: nat, id: nat, status: nat): nat {
    exitCode * 0x1_0000 + id * 0x100 + status
  }

  /** Words 1 to 7 of a response, in order. */
  ghost predicate CarriesWords(values: seq<nat>, response: Entry) {
    |values| == 7 && forall i :: 0 <= i < 7 ==> values[i] == response[i + 1]
  }

  /** What the call says of a response whose first word holds this exit code, message id and status byte. */
  ghost predicate ReportsAs(response: Entry, exitCode: nat, id: nat, status: nat, outcome: Outcome) {
    && id < 0x100 && status < 0x100 && response[0] == ResponseWord(exitCode, id, status)
    && match outcome
       case Sent(reply) => status < 240 && reply.exitCode == exitCode && CarriesWords(reply.values, response)
       case NotRecognized(values) => status == 255 && CarriesWords(values, response)
       case UnknownError(code, values) => 240 <= status < 255 && code == status && CarriesWords(values, response)
       case _ => false
  }

  ghost predicate Reports(response: Entry, outcome: Outcome) {
    exists exitCode, id, status: nat :: ReportsAs(response, exitCode, id, status, outcome)
  }

  lemma ResponseWordParts(word: nat)
    ensures word == ResponseWord(word / 0x1_0000, word / 0x100 % 0x100, word % 0x100)
  {
    var high := word / 0x100;
    assert word == high * 0x100 + word % 0x100;
    assert high == high / 0x100 * 0x100 + high % 0x100;
    assert high / 0x100 == word / 0x1_0000;
  }

  lemma ResponseWordUnique(exitCode: nat, id: nat, status: nat)
    requires id < 0x100 && status < 0x100
    ensures ResponseWord(exitCode, id, status) / 0x1_0000 == exitCode
    ensures ResponseWord(exitCode, id, status) % 0x100 == status
  {
  }

  lemma DecodeReports(response: Entry)
    ensures Reports(response, DecodeResponse(response))
  {
    var word := response[0];
    ResponseWordParts(word);
    assert ReportsAs(response, word / 0x1_0000, word / 0x100 % 0x100, word % 0x100, DecodeResponse(response));
  }

  /** The parts of the first word decide: no other exit code, and no other kind of outcome, is ever reported. */
  lemma ReportsIff(response: Entry, exitCode: nat, id: nat, status: nat, outcome: Outcome)
    requires id < 0x100 && status < 0x100 && response[0] == ResponseWord(exitCode, id, status)
    requires Reports(response, outcome)
    ensures outcome.Sent? <==> status < 240
    ensures outcome.NotRecognized? <==> status == 255
    ensures outcome.UnknownError? <==> 240 <= status < 255
    ensures outcome.Sent? ==> outcome.reply.exitCode == exitCode && CarriesWords(outcome.reply.values, response)
    ensures outcome.NotRecognized? ==> CarriesWords(outcome.values, response)
    ensures outcome.UnknownError? ==> outcome.status == status && CarriesWords(outcome.values, response)
  {
    var c, i, t: nat :| ReportsAs(response, c, i, t, outcome);
    ResponseWordUnique(exitCode, id, status);
    ResponseWordUnique(c, i, t);
  }

  /** What a host statement may observe of firmware progress. */
  ghost predicate FirmwareOnly(s: State, s': State) {
    && |s'.mem| == |s.mem|
    && SameCalls(s, s')
    && s'.req.sent == s.req.sent && s'.req.prod == s.req.prod
    && s'.resp.got == s.resp.got && s'.resp.cons == s.resp.cons
    && s.resp.sent <= s'.resp.sent
  }

  class ArcMessageQueue {
    const cfg: Config
    var st: State

    ghost predicate Valid()
      reads this
    {
      Inv(cfg, st)
    }

    constructor (cfg: Config)
      requires cfg.n > 0
      ensures Valid() && this.cfg == cfg && Init(cfg, st)
    {
      this.cfg := cfg;
      var ring := Ring([], [], PIdle, CIdle);
      st := State(seq(QueueWords(cfg.n), _ => 0), ring, ring, Free, [], 0);
      new;
      LayoutsFit(cfg.n);
    }

    /** The firmware makes one access, or none. */
    method FirmwareStep()
      requires Valid()
      modifies this
      ensures Valid() && FirmwareOnly(old(st), st)
    {
      LayoutsFit(cfg.n);
      var rq, rs := RequestLayout(cfg.n), ResponseLayout(cfg.n);
      var takes: bool := *;
      var m: Move := *;
      ghost var s := st;
      if takes {
        if (m.ConsStart? || m.ConsPoll? || m.ConsAbort? || m.ConsWord? || m.ConsPublish?)
           && Enabled(cfg.n, rq, st.mem, st.req, m)
        {
          st := st.(mem := Memory(cfg.n, rq, st.mem, st.req, m), req := Agents(cfg.n, rq, st.mem, st.req, m));
          StepKeepsInv(cfg, s, TakeMove(m), st);
        }
      } else {
        if m.ProdStart? && |st.resp.sent| < |st.req.got| {
          m := ProdStart(cfg.reply(|st.resp.sent|, st.req.got[|st.resp.sent|]));
        }
        if (m.ProdStart? || m.ProdPoll? || m.ProdAbort? || m.ProdWord? || m.ProdPublish?)
           && (m.ProdStart? ==> |st.resp.sent| < |st.req.got|)
           && Enabled(cfg.n, rs, st.mem, st.resp, m)
        {
          st := st.(mem := Memory(cfg.n, rs, st.mem, st.resp, m), resp := Agents(cfg.n, rs, st.mem, st.resp, m));
          StepKeepsInv(cfg, s, AnswerMove(m), st);
        }
      }
    }

    /** Any amount of firmware progress. */
    method Interfere()
      requires Valid()
      modifies this
      ensures Valid() && FirmwareOnly(old(st), st)
    {
      var steps :| steps >= 0;
      for i := 0 to steps
        invariant Valid() && FirmwareOnly(old(st), st)
      {
        FirmwareStep();
      }
    }

    method ReadWord(offset: nat) returns (word: nat)
      requires Valid() && offset < |st.mem|
      ensures word == st.mem[offset]
    {
      word := st.mem[offset];
    }

    /** Waits for room, stores the entry word by word, then publishes the write pointer. */
    method PushRequest(caller: nat, request: Entry, polls: nat) returns (ok: bool)
      requires Valid() && st.stage.Free?
      modifies this
      ensures Valid()
      ensures st.resp.got == old(st.resp.got) && st.orphans == old(st.orphans) && st.done == old(st.done)
      ensures ok ==> && st.req.sent == old(st.req.sent) + [request]
                     && st.stage == Popping(caller, request, |old(st.req.sent)|)
                     && st.resp.cons.CIdle?
      ensures !ok ==> st.req.sent == old(st.req.sent) && st.stage.Free? && |st.req.sent| == |st.req.got| + cfg.n
    {
      var size := cfg.n;
      LayoutsFit(size);
      var wptr := ReadWord(REQUEST_WPTR);
      ghost var s := st;
      st := st.(req := st.req.(prod := PPoll(request, wptr)), stage := Pushing(caller, request));
      StepKeepsInv(cfg, s, Acquire(caller, request), st);

      ok := AwaitRoom(caller, request, wptr, polls);
      if ok {
        StoreRequest(caller, request, wptr);
      }
    }

    /** Polls the read pointer until the ring is not full, or gives up at the last poll. */
    method AwaitRoom(caller: nat, request: Entry, wptr: nat, polls: nat) returns (ok: bool)
      requires Valid() && st.stage == Pushing(caller, request) && st.req.prod == PPoll(request, wptr)
      modifies this
      ensures Valid() && st.req.sent == old(st.req.sent)
      ensures st.resp.got == old(st.resp.got) && st.orphans == old(st.orphans) && st.done == old(st.done)
      ensures ok ==> st.stage == old(st.stage) && st.req.prod == PWrite(request, wptr, 0)
      ensures !ok ==> st.stage.Free? && |st.req.sent| == |st.req.got| + cfg.n
    {
      var size := cfg.n;
      LayoutsFit(size);
      var k := 0;
      while true
        invariant Valid() && k <= polls
        invariant st.stage == Pushing(caller, request) && st.req.prod == PPoll(request, wptr)
        invariant st.req.sent == old(st.req.sent) && st.resp.got == old(st.resp.got)
        invariant st.orphans == old(st.orphans) && st.done == old(st.done)
        decreases polls - k
      {
        Interfere();
        var rptr := ReadWord(REQUEST_RPTR);
        ghost var s := st;
        if AbsDiff(rptr, wptr) % (2 * size) != size {
          st := st.(req := st.req.(prod := PWrite(request, wptr, 0)));
          StepKeepsInv(cfg, s, PushMove(ProdPoll), st);
          return true;
        }
        if k == polls {
          PointerTestsExact(size, RequestLayout(size), st.mem, st.req);
          st := st.(req := st.req.(prod := PIdle), stage := Free);
          StepKeepsInv(cfg, s, PushMove(ProdAbort), st);
          return false;
        }
        k := k + 1;
      }
    }

    /** Stores the entry at the write pointer word by word, then publishes the write pointer. */
    method StoreRequest(caller: nat, request: Entry, wptr: nat)
      requires Valid() && st.stage == Pushing(caller, request) && st.req.prod == PWrite(request, wptr, 0)
      modifies this
      ensures Valid()
      ensures st.resp.got == old(st.resp.got) && st.orphans == old(st.orphans) && st.done == old(st.done)
      ensures st.req.sent == old(st.req.sent) + [request] && st.resp.cons.CIdle?
      ensures st.stage == Popping(caller, request, |old(st.req.sent)|)
    {
      var size := cfg.n;
      LayoutsFit(size);
      ghost var s := st;
      var offset := HEADER_LEN + (wptr % size) * ENTRY_LEN;
      for j := 0 to ENTRY_LEN
        invariant Valid()
        invariant st.stage == Pushing(caller, request) && st.req.prod == PWrite(request, wptr, j)
        invariant st.req.sent == old(st.req.sent) && st.resp.got == old(st.resp.got) && st.resp.cons.CIdle?
        invariant st.orphans == old(st.orphans) && st.done == old(st.done)
      {
        Interfere();
        s := st;
        st := st.(mem := st.mem[offset + j := request[j]], req := st.req.(prod := PWrite(request, wptr, j + 1)));
        StepKeepsInv(cfg, s, PushMove(ProdWord), st);
      }

      Interfere();
      s := st;
      st := st.(mem := st.mem[REQUEST_WPTR := (wptr + 1) % (2 * size)],
                req := st.req.(prod := PIdle, sent := st.req.sent + [request]),
                stage := Popping(caller, request, |st.req.sent|));
      StepKeepsInv(cfg, s, PushMove(ProdPublish), st);
    }

    /** Waits for a response, loads it word by word, then publishes the read pointer. */
    method PopResponse(polls: nat) returns (ok: bool, response: Entry)
      requires Valid() && st.stage.Popping? && st.resp.cons.CIdle?
      modifies this
      ensures Valid() && st.stage.Free? && st.req.sent == old(st.req.sent)
      ensures ok ==> && st.resp.got == old(st.resp.got) + [response] && st.orphans == old(st.orphans)
                     && |old(st.resp.got)| < |st.req.sent|
                     && response == cfg.reply(|old(st.resp.got)|, st.req.sent[|old(st.resp.got)|])
      ensures !ok ==> st.resp.got == old(st.resp.got) == st.resp.sent && st.orphans == old(st.orphans) + 1
    {
      var size := cfg.n;
      LayoutsFit(size);
      response := [0, 0, 0, 0, 0, 0, 0, 0];
      var rptr := ReadWord(RESPONSE_RPTR);
      ghost var s := st;
      st := st.(resp := st.resp.(cons := CPoll(rptr)));
      StepKeepsInv(cfg, s, PopMove(ConsStart), st);

      ok := AwaitResponse(rptr, polls);
      if ok {
        response := LoadResponse(rptr);
      }
    }

    /** Polls the write pointer until the ring is not empty, or gives up at the last poll. */
    method AwaitResponse(rptr: nat, polls: nat) returns (ok: bool)
      requires Valid() && st.stage.Popping? && st.resp.cons == CPoll(rptr)
      modifies this
      ensures Valid() && st.req.sent == old(st.req.sent) && st.resp.got == old(st.resp.got)
      ensures ok ==> st.stage == old(st.stage) && st.resp.cons == CRead(rptr, []) && st.orphans == old(st.orphans)
      ensures !ok ==> st.stage.Free? && st.orphans == old(st.orphans) + 1 && st.resp.got == st.resp.sent
    {
      var size := cfg.n;
      LayoutsFit(size);
      var k := 0;
      while true
        invariant Valid() && k <= polls
        invariant st.stage == old(st.stage) && st.resp.cons == CPoll(rptr)
        invariant st.req.sent == old(st.req.sent) && st.resp.got == old(st.resp.got)
        invariant st.orphans == old(st.orphans)
        decreases polls - k
      {
        Interfere();
        var wptr := ReadWord(RESPONSE_WPTR);
        ghost var s := st;
        if rptr != wptr {
          st := st.(resp := st.resp.(cons := CRead(rptr, [])));
          StepKeepsInv(cfg, s, PopMove(ConsPoll), st);
          return true;
        }
        if k == polls {
          PointerTestsExact(size, ResponseLayout(size), st.mem, st.resp);
          st := st.(resp := st.resp.(cons := CIdle), stage := Free, orphans := st.orphans + 1);
          StepKeepsInv(cfg, s, PopMove(ConsAbort), st);
          return false;
        }
        k := k + 1;
      }
    }

    /** Loads the entry at the read pointer word by word, then publishes the read pointer. */
    method LoadResponse(rptr: nat) returns (response: Entry)
      requires Valid() && st.stage.Popping? && st.resp.cons == CRead(rptr, [])
      modifies this
      ensures Valid() && st.stage.Free? && st.req.sent == old(st.req.sent) && st.orphans == old(st.orphans)
      ensures st.resp.got == old(st.resp.got) + [response] && |old(st.resp.got)| < |st.req.sent|
      ensures response == cfg.reply(|old(st.resp.got)|, st.req.sent[|old(st.resp.got)|])
    {
      var size := cfg.n;
      LayoutsFit(size);
      ghost var s := st;
      var offset := HEADER_LEN + (size + rptr % size) * ENTRY_LEN;
      var buf: seq<nat> := [];
      for j := 0 to ENTRY_LEN
        invariant Valid() && |buf| == j
        invariant st.stage == old(st.stage) && st.resp.cons == CRead(rptr, buf)
        invariant st.req.sent == old(st.req.sent) && st.resp.got == old(st.resp.got)
        invariant st.orphans == old(st.orphans)
      {
        Interfere();
        var word := ReadWord(offset + j);
        s := st;
        buf := buf + [word];
        st := st.(resp := st.resp.(cons := CRead(rptr, buf)));
        StepKeepsInv(cfg, s, PopMove(ConsWord), st);
      }

      Interfere();
      s := st;
      response := buf;
      st := st.(mem := st.mem[RESPONSE_RPTR := (rptr + 1) % (2 * size)],
                resp := st.resp.(cons := CIdle, got := st.resp.got + [response]),
                done := st.done + [Return(st.stage.caller, st.stage.request, st.stage.pushedAt,
                                          |st.resp.got|, response)],
                stage := Free);
      StepKeepsInv(cfg, s, PopMove(ConsPublish), st);
      assert response == st.resp.got[|old(st.resp.got)|] == st.resp.sent[|old(st.resp.got)|];
    }

    /**
     One call, made while holding the mutex.  The response read is the answer to the
     request `orphans` places before this call's own, so with no orphan it is its own.
     */
    method SendMessage(caller: nat, messageType: nat, args: seq<nat>, polls: nat) returns (outcome: Outcome)
      requires Valid() && st.stage.Free?
      modifies this
      ensures Valid() && st.stage.Free?
      ensures |args| > MAX_ARGS ==> outcome == TooManyArguments && st == old(st)
      ensures |args| <= MAX_ARGS ==>
        var request, n := PackRequest(messageType, args), |old(st.req.sent)|;
        match outcome
        case TooManyArguments => false
        case PushTimeout =>
          && st.req.sent == old(st.req.sent) && st.orphans == old(st.orphans)
          && |st.req.sent| == |st.req.got| + cfg.n
        case PopTimeout =>
          && st.req.sent == old(st.req.sent) + [request] && st.orphans == old(st.orphans) + 1
          && st.resp.got == st.resp.sent
        case _ =>
          && st.req.sent == old(st.req.sent) + [request] && st.orphans == old(st.orphans)
          && old(st.orphans) <= n
          && Reports(cfg.reply(n - old(st.orphans), st.req.sent[n - old(st.orphans)]), outcome)
          && (old(st.orphans) == 0 ==> Reports(cfg.reply(n, request), outcome))
    {
      if |args| > MAX_ARGS {
        return TooManyArguments;
      }
      var request := PackRequest(messageType, args);
      var pushed := PushRequest(caller, request, polls);
      if !pushed {
        return PushTimeout;
      }
      var popped, response := PopResponse(polls);
      if !popped {
        return PopTimeout;
      }
      outcome := DecodeResponse(response);
      DecodeReports(response);
    }
  }
}
