/** What the ARC message queue guarantees over whole runs. */
module ArcQueueTheorems {
  import opened Modular
  import opened ArcRing
  import opened ArcQueueProtocol

  /**
   In every reachable state both rings hold between 0 and n entries, the pointer tests
   used by the driver and the firmware decide full and empty exactly, and entries have
   come out in the order they went in.
   */
  lemma RingsAreBoundedFifos(cfg: Config, run: seq<State>, acts: seq<Action>, i: nat)
    requires IsRun(cfg, run, acts) && i < |run|
    ensures var s := run[i];
            && Sized(cfg, s)
            && |s.req.got| <= |s.req.sent| <= |s.req.got| + cfg.n && s.req.got <= s.req.sent
            && |s.resp.got| <= |s.resp.sent| <= |s.resp.got| + cfg.n && s.resp.got <= s.resp.sent
            && (TestsFull(cfg.n, s.mem[REQUEST_RPTR], s.mem[REQUEST_WPTR]) <==> |s.req.sent| - |s.req.got| == cfg.n)
            && (TestsFull(cfg.n, s.mem[RESPONSE_RPTR], s.mem[RESPONSE_WPTR]) <==> |s.resp.sent| - |s.resp.got| == cfg.n)
            && (s.mem[REQUEST_RPTR] == s.mem[REQUEST_WPTR] <==> |s.req.sent| == |s.req.got|)
            && (s.mem[RESPONSE_RPTR] == s.mem[RESPONSE_WPTR] <==> |s.resp.sent| == |s.resp.got|)
  {
    RunKeepsInv(cfg, run, acts, i);
    LayoutsFit(cfg.n);
    PointerTestsExact(cfg.n, RequestLayout(cfg.n), run[i].mem, run[i].req);
    PointerTestsExact(cfg.n, ResponseLayout(cfg.n), run[i].mem, run[i].resp);
  }

  predicate HostAction(a: Action) {
    a.Acquire? || a.PushMove? || a.PopMove?
  }

  /**
   No step writes a header word it does not own or a slot that still holds an unconsumed
   entry: the host writes only its two pointers and one free request slot, the firmware
   only its two pointers and one free response slot.
   */
  lemma NothingLiveIsOverwritten(cfg: Config, s: State, a: Action, s': State, w: nat)
    requires Inv(cfg, s) && Next(cfg, s, a, s')
    requires w < |s.mem| && s'.mem[w] != s.mem[w]
    ensures HostAction(a) ==>
              || w == REQUEST_WPTR || w == RESPONSE_RPTR
              || (exists j :: 0 <= j < ENTRY_LEN && w == WordAt(RequestLayout(cfg.n), |s.req.sent| % cfg.n, j))
    ensures !HostAction(a) ==>
              || w == REQUEST_RPTR || w == RESPONSE_WPTR
              || (exists j :: 0 <= j < ENTRY_LEN && w == WordAt(ResponseLayout(cfg.n), |s.resp.sent| % cfg.n, j))
    ensures forall i, j :: |s.req.got| <= i < |s.req.sent| && 0 <= j < ENTRY_LEN ==>
              w != WordAt(RequestLayout(cfg.n), i % cfg.n, j)
    ensures forall i, j :: |s.resp.got| <= i < |s.resp.sent| && 0 <= j < ENTRY_LEN ==>
              w != WordAt(ResponseLayout(cfg.n), i % cfg.n, j)
  {
    var n := cfg.n;
    LayoutsFit(n);
    if a.PushMove? && a.m.ProdWord? {
      ModOfDoubleWrap(|s.req.sent|, n);
      assert w == WordAt(RequestLayout(n), |s.req.sent| % n, s.req.prod.j);
    }
    if a.AnswerMove? && a.m.ProdWord? {
      ModOfDoubleWrap(|s.resp.sent|, n);
      assert w == WordAt(ResponseLayout(n), |s.resp.sent| % n, s.resp.prod.j);
    }
    forall i, j | |s.req.got| <= i < |s.req.sent| && 0 <= j < ENTRY_LEN
      ensures w != WordAt(RequestLayout(n), i % n, j)
    {
      if |s.req.sent| < |s.req.got| + n {
        ModDistinct(i, |s.req.sent|, n);
      }
    }
    forall i, j | |s.resp.got| <= i < |s.resp.sent| && 0 <= j < ENTRY_LEN
      ensures w != WordAt(ResponseLayout(n), i % n, j)
    {
      if |s.resp.sent| < |s.resp.got| + n {
        ModDistinct(i, |s.resp.sent|, n);
      }
    }
  }

  /** The n-th response any caller popped is the answer to the n-th request any caller pushed. */
  lemma NthResponseAnswersNthRequest(cfg: Config, run: seq<State>, acts: seq<Action>, i: nat, k: nat)
    requires IsRun(cfg, run, acts) && i < |run| && k < |run[i].resp.got|
    ensures k < |run[i].req.sent|
    ensures run[i].resp.got[k] == cfg.reply(k, run[i].req.sent[k])
  {
    RunKeepsInv(cfg, run, acts, i);
    assert run[i].resp.got[k] == run[i].resp.sent[k];
  }

  /** How many of the first i actions were a wait for a response that timed out. */
  function PopTimeouts(acts: seq<Action>, i: nat): nat
    requires i <= |acts|
  {
    if i == 0 then 0
    else PopTimeouts(acts, i - 1) + (if acts[i - 1] == PopMove(ConsAbort) then 1 else 0)
  }

  lemma {:induction false} OrphansArePopTimeouts(cfg: Config, run: seq<State>, acts: seq<Action>, i: nat)
    requires IsRun(cfg, run, acts) && i < |run|
    ensures run[i].orphans == PopTimeouts(acts, i)
  {
    if i > 0 {
      OrphansArePopTimeouts(cfg, run, acts, i - 1);
    }
  }

  lemma {:induction false} NoPopTimeouts(acts: seq<Action>, i: nat)
    requires i <= |acts|
    ensures PopTimeouts(acts, i) == 0 <==> forall j :: 0 <= j < i ==> acts[j] != PopMove(ConsAbort)
  {
    if i > 0 {
      NoPopTimeouts(acts, i - 1);
    }
  }

  /**
   A call that returns at step i popped the answer to the request published `PopTimeouts`
   requests before its own.  It is its own answer if and only if no call before it in the
   run pushed a request and then timed out waiting for the response.
   */
  lemma OwnAnswerIffNoEarlierPopTimeout(cfg: Config, run: seq<State>, acts: seq<Action>, i: nat)
    requires IsRun(cfg, run, acts) && i < |acts| && acts[i] == PopMove(ConsPublish)
    ensures |run[i + 1].done| == |run[i].done| + 1
    ensures var r := run[i + 1].done[|run[i].done|];
            var sent := run[i + 1].req.sent;
            && run[i].stage == Popping(r.caller, r.request, r.pushedAt)
            && r.pushedAt < |sent| && sent[r.pushedAt] == r.request
            && r.poppedAt == r.pushedAt - PopTimeouts(acts, i) >= 0
            && r.response == cfg.reply(r.poppedAt, sent[r.poppedAt])
            && (r.poppedAt == r.pushedAt <==> forall j :: 0 <= j < i ==> acts[j] != PopMove(ConsAbort))
  {
    RunKeepsInv(cfg, run, acts, i);
    RunKeepsInv(cfg, run, acts, i + 1);
    OrphansArePopTimeouts(cfg, run, acts, i);
    NoPopTimeouts(acts, i);
    assert ReturnOk(cfg, run[i + 1].req.sent, run[i + 1].done[|run[i].done|]);
  }

  /** From `i` on the mutex holder only polls for room. */
  ghost predicate PollsUntil(run: seq<State>, acts: seq<Action>, i: nat, j: nat)
    requires i <= j <= |acts| && |run| == |acts| + 1
  {
    forall k :: i < k <= j ==> run[k].stage.Pushing?
  }

  /** Once the room check has passed, the call cannot time out in the push any more. */
  lemma {:induction false} AbortMeansStillPolling(cfg: Config, run: seq<State>, acts: seq<Action>, k: nat, j: nat)
    requires IsRun(cfg, run, acts) && k <= j < |acts| && acts[j] == PushMove(ProdAbort)
    requires forall x :: k <= x <= j ==> run[x].stage.Pushing?
    ensures run[k].req.prod.PPoll?
    decreases j - k
  {
    RunKeepsInv(cfg, run, acts, k);
    assert Next(cfg, run[k], acts[k], run[k + 1]);
    if k < j {
      AbortMeansStillPolling(cfg, run, acts, k + 1, j);
    }
  }

  lemma {:induction false} PollingWritesNothing(cfg: Config, run: seq<State>, acts: seq<Action>, i: nat, k: nat, j: nat)
    requires IsRun(cfg, run, acts) && i < k <= j < |acts|
    requires acts[i].Acquire? && acts[j] == PushMove(ProdAbort) && PollsUntil(run, acts, i, j)
    ensures Sized(cfg, run[i]) && Sized(cfg, run[k])
    ensures run[k].req.sent == run[i].req.sent && run[k].resp.got == run[i].resp.got
    ensures run[k].orphans == run[i].orphans && run[k].done == run[i].done
    ensures run[k].mem[REQUEST_WPTR] == run[i].mem[REQUEST_WPTR]
    ensures run[k].mem[RESPONSE_RPTR] == run[i].mem[RESPONSE_RPTR]
    ensures forall a :: HEADER_LEN <= a < HEADER_LEN + cfg.n * ENTRY_LEN ==> run[k].mem[a] == run[i].mem[a]
  {
    RunKeepsInv(cfg, run, acts, i);
    RunKeepsInv(cfg, run, acts, k);
    LayoutsFit(cfg.n);
    AbortMeansStillPolling(cfg, run, acts, k, j);
    assert Next(cfg, run[k - 1], acts[k - 1], run[k]);
    if k > i + 1 {
      PollingWritesNothing(cfg, run, acts, i, k - 1, j);
      AbortMeansStillPolling(cfg, run, acts, k - 1, j);
    }
  }

  /**
   A push that times out, whatever the firmware did meanwhile, leaves the request area,
   both host pointers and all host-side accounting as they were when it took the mutex.
   */
  lemma TimedOutPushLeavesQueueUnchanged(cfg: Config, run: seq<State>, acts: seq<Action>, i: nat, j: nat)
    requires IsRun(cfg, run, acts) && i < j < |acts|
    requires acts[i].Acquire? && acts[j] == PushMove(ProdAbort) && PollsUntil(run, acts, i, j)
    ensures var s, t := run[i], run[j + 1];
            && t.stage.Free? && Sized(cfg, s) && Sized(cfg, t)
            && t.req.sent == s.req.sent && t.resp.got == s.resp.got && t.orphans == s.orphans && t.done == s.done
            && t.mem[REQUEST_WPTR] == s.mem[REQUEST_WPTR] && t.mem[RESPONSE_RPTR] == s.mem[RESPONSE_RPTR]
            && forall a :: HEADER_LEN <= a < HEADER_LEN + cfg.n * ENTRY_LEN ==> t.mem[a] == s.mem[a]
  {
    PollingWritesNothing(cfg, run, acts, i, j, j);
    RunKeepsInv(cfg, run, acts, j + 1);
    assert Next(cfg, run[j], acts[j], run[j + 1]);
  }

  const ENTRY_SIZE := 32
  const HEADER_SIZE := 32

  /** Byte address of the queue with a given index. */
  function QueueBase(base: nat, n: nat, index: nat): nat {
    base + index * (2 * n * ENTRY_SIZE + HEADER_SIZE)
  }

  /** Queues laid out one after another by `get_blackhole_arc_message_queue` never overlap. */
  lemma QueuesAreDisjoint(base: nat, n: nat, p: nat, q: nat, a: nat, b: nat)
    requires p < q && a < 4 * QueueWords(n) && b < 4 * QueueWords(n)
    ensures QueueBase(base, n, p) + a < QueueBase(base, n, q) + b
    ensures QueueBase(base, n, 0) == base && QueueBase(base, n, p + 1) == QueueBase(base, n, p) + 4 * QueueWords(n)
  {
    var size := 2 * n * ENTRY_SIZE + HEADER_SIZE;
    MulAtLeast(q - p, size);
    assert q * size == p * size + (q - p) * size;
    assert (p + 1) * size == p * size + size;
  }
}
