/**
 * The hinted-handoff pump (cmd/kateway/hh/disk/pump.go): the background loop that
 * takes the next block from a queue, publishes it with bounded retries and doubling
 * backoff, commits the cursor on success, rolls the block back when every attempt
 * failed, and reacts to the queue's end-of-queue, corruption and not-open errors.
 *
 * Everything the loop waits for or asks the outside world is an input here: one
 * `Round` per turn of the loop says whether quit is seen, what Next returns, how
 * each publish attempt ends and whether Rollback succeeds. The calls the pump makes
 * on the queue, its cursor and the publish store are recorded, in order, as a trace.
 */
module DiskPump {
  import opened Base

  /**
   * The constants the loop uses (defined next to the queue, outside this file):
   * initialBackoff, maxBackoff, defaultMaxRetries and dumpPerBlocks.
   */
  datatype Config = Config(initialBackoff: nat, maxBackoff: nat, maxRetries: nat, dumpPerBlocks: nat)
  {
    /** `okN % dumpPerBlocks` needs a non-zero divisor. */
    predicate Valid() { dumpPerBlocks > 0 }
  }

  /** What q.Next(&b) returns. */
  datatype NextResult = Fetched | EndOfQueue | QueueNotOpen | SegmentCorrupt | OtherError

  /**
   * The environment of one turn of the loop: whether `<-q.quit` is ready at the top,
   * Next's result, the outcome of publish attempt i, whether quit wins the select
   * during the i-th backoff, whether Rollback succeeds, and whether quit wins the
   * select while idling at end of queue.
   */
  datatype Round = Round(
    quitAtTop: bool,
    next: NextResult,
    published: nat -> bool,
    quitInBackoff: nat -> bool,
    rollbackOk: bool,
    quitWhileIdle: bool)

  /** The calls the pump makes, in order. */
  datatype Call =
    | Next(result: NextResult)             // q.Next(&b)
    | Publish(attempt: nat, ok: bool)      // store.DefaultPubStore.SyncPub
    | Commit                               // q.cursor.commitPosition()
    | Dump                                 // q.cursor.dump()
    | Backoff(wait: nat)                   // <-time.After(backoff)
    | Rollback(ok: bool)                   // q.Rollback(&b)
    | PollWait                             // <-timer.After(pollEofSleep)
    | SkipSegment                          // q.skipCursorSegment()
    | Done                                 // q.wg.Done()

  /** Why the pump returned. */
  datatype Exit = Quit | NotOpen

  // ---------------------------------------------------------------------------
  // The retry loop of one block

  /** `backoff *= 2` capped at maxBackoff. */
  function NextBackoff(cfg: Config, backoff: nat): (b: nat)
    ensures b <= cfg.maxBackoff && b <= 2 * backoff
    ensures 2 * backoff < cfg.maxBackoff ==> b == 2 * backoff
  {
    if 2 * backoff >= cfg.maxBackoff then cfg.maxBackoff else 2 * backoff
  }

  /** The wait after the i-th failed attempt of a block. */
  function BackoffAt(cfg: Config, i: nat): nat
  {
    if i == 0 then cfg.initialBackoff else NextBackoff(cfg, BackoffAt(cfg, i - 1))
  }

  /** How the retry loop of a block ends. */
  datatype RetryEnd =
    | Published     // an attempt succeeded (`break` with err == nil)
    | GaveUp        // every attempt failed
    | NoAttempt     // defaultMaxRetries is 0: the loop body never ran and err is still nil
    | QuitWaiting   // quit was seen during a backoff: the pump returns

  /** The calls of the retry loop from attempt i on, the new okN, and how the loop ended. */
  datatype Retries = Retries(calls: seq<Call>, okN: nat, end: RetryEnd)

  /** The retry loop `for retries = i; retries < defaultMaxRetries; retries++`. */
  function Retry(cfg: Config, r: Round, i: nat, backoff: nat, okN: nat): Retries
    requires cfg.Valid()
    decreases cfg.maxRetries - i
  {
    if i >= cfg.maxRetries then Retries([], okN, if i == 0 then NoAttempt else GaveUp)
    else if r.published(i) then
      var ok := okN + 1;
      Retries([Publish(i, true), Commit] + (if ok % cfg.dumpPerBlocks == 0 then [Dump] else []), ok, Published)
    else if r.quitInBackoff(i) then Retries([Publish(i, false)], okN, QuitWaiting)
    else
      var rest := Retry(cfg, r, i + 1, NextBackoff(cfg, backoff), okN);
      Retries([Publish(i, false), Backoff(backoff)] + rest.calls, rest.okN, rest.end)
  }

  /** 2 to the power j. */
  function Pow2(j: nat): (p: nat)
    ensures p >= 1
  {
    if j == 0 then 1 else 2 * Pow2(j - 1)
  }

  /**
   * Closed form of the backoff: once doubled, the i-th wait is initialBackoff * 2^i,
   * capped at maxBackoff.
   */
  lemma {:induction false} BackoffClosedForm(cfg: Config, i: nat)
    requires i >= 1
    ensures BackoffAt(cfg, i) == Min(cfg.initialBackoff * Pow2(i), cfg.maxBackoff)
    ensures BackoffAt(cfg, i) <= cfg.maxBackoff
  {
    var a := cfg.initialBackoff;
    if i == 1 {
      assert a * Pow2(1) == 2 * a;
    } else {
      BackoffClosedForm(cfg, i - 1);
      DoubleProduct(a, Pow2(i - 1));
      CapThenDouble(cfg, a * Pow2(i - 1));
    }
  }

  lemma DoubleProduct(a: nat, p: nat)
    ensures a * (2 * p) == 2 * (a * p)
  {
  }

  /** Doubling a wait that is already capped gives the capped double. */
  lemma CapThenDouble(cfg: Config, x: nat)
    ensures NextBackoff(cfg, Min(x, cfg.maxBackoff)) == Min(2 * x, cfg.maxBackoff)
  {
  }

  /** Attempt k of the round neither succeeds nor is cut short by quit. */
  predicate FailsQuietly(r: Round, k: nat)
  {
    !r.published(k) && !r.quitInBackoff(k)
  }

  /** The first attempt from i on (below n) that succeeds or sees quit during its backoff; n if none. */
  function FirstStop(r: Round, i: nat, n: nat): (f: nat)
    requires i <= n
    ensures i <= f <= n
    ensures forall k | i <= k < f :: FailsQuietly(r, k)
    ensures f < n ==> !FailsQuietly(r, f)
    decreases n - i
  {
    if i == n || !FailsQuietly(r, i) then i else FirstStop(r, i + 1, n)
  }

  /** The number of publish attempts in a trace. */
  function Publishes(calls: seq<Call>): nat
  {
    if calls == [] then 0 else (if calls[0].Publish? then 1 else 0) + Publishes(calls[1..])
  }

  /** How many times the call c occurs in a trace. */
  function Count(calls: seq<Call>, c: Call): nat
  {
    if calls == [] then 0 else (if calls[0] == c then 1 else 0) + Count(calls[1..], c)
  }

  lemma {:induction false} CountAppend(a: seq<Call>, b: seq<Call>, c: Call)
    ensures Count(a + b, c) == Count(a, c) + Count(b, c)
  {
    if a == [] {
      assert a + b == b;
    } else {
      assert (a + b)[1..] == a[1..] + b;
      CountAppend(a[1..], b, c);
    }
  }

  lemma {:induction false} CountAbsent(calls: seq<Call>, c: Call)
    requires c !in calls
    ensures Count(calls, c) == 0
  {
    if calls != [] {
      assert c !in calls[1..];
      CountAbsent(calls[1..], c);
    }
  }

  lemma {:induction false} PublishesAppend(a: seq<Call>, b: seq<Call>)
    ensures Publishes(a + b) == Publishes(a) + Publishes(b)
  {
    if a == [] {
      assert a + b == b;
    } else {
      assert (a + b)[1..] == a[1..] + b;
      PublishesAppend(a[1..], b);
    }
  }

  /** A successful attempt, its commit and at most a dump hold a single publish. */
  lemma PublishedOnce(i: nat, dumps: seq<Call>)
    requires dumps == [] || dumps == [Dump]
    ensures Publishes([Publish(i, true), Commit] + dumps) == 1
  {
    PublishesAppend([Publish(i, true), Commit], dumps);
    assert [Publish(i, true), Commit][1..] == [Commit];
    assert [Commit][1..] == [];
    if dumps == [Dump] {
      assert dumps[1..] == [];
    }
  }

  /**
   * How the retry loop of a block ends, given the first attempt f that succeeds or is
   * interrupted by quit: a success commits exactly once, counts one more block and
   * dumps the cursor iff the new count is a multiple of dumpPerBlocks; when every
   * attempt fails the loop gives up (or, with no attempts allowed, never starts).
   */
  lemma {:induction false} RetryOutcome(cfg: Config, r: Round, i: nat, backoff: nat, okN: nat)
    requires cfg.Valid() && i <= cfg.maxRetries
    ensures var f := FirstStop(r, i, cfg.maxRetries);
            var d := Retry(cfg, r, i, backoff, okN);
            && d.end == (if f == cfg.maxRetries then (if i == 0 && cfg.maxRetries == 0 then NoAttempt else GaveUp)
                         else if r.published(f) then Published else QuitWaiting)
            && d.okN == (if d.end == Published then okN + 1 else okN)
            && Count(d.calls, Commit) == (if d.end == Published then 1 else 0)
            && Count(d.calls, Dump) == (if d.end == Published && (okN + 1) % cfg.dumpPerBlocks == 0 then 1 else 0)
    decreases cfg.maxRetries - i
  {
    if i >= cfg.maxRetries {
    } else if r.published(i) {
      RetrySucceeds(cfg, r, i, backoff, okN);
      SuccessCounts(i, if (okN + 1) % cfg.dumpPerBlocks == 0 then [Dump] else []);
    } else if r.quitInBackoff(i) {
    } else {
      var rest := Retry(cfg, r, i + 1, NextBackoff(cfg, backoff), okN);
      RetryOutcome(cfg, r, i + 1, NextBackoff(cfg, backoff), okN);
      RetryFails(cfg, r, i, backoff, okN);
      FailureCounts(i, backoff, rest.calls);
    }
  }

  /** A successful attempt commits once and dumps as often as `dumps` says. */
  lemma SuccessCounts(i: nat, dumps: seq<Call>)
    requires dumps == [] || dumps == [Dump]
    ensures Count([Publish(i, true), Commit] + dumps, Commit) == 1
    ensures Count([Publish(i, true), Commit] + dumps, Dump) == |dumps|
  {
    assert [Publish(i, true), Commit] + dumps == [Publish(i, true)] + ([Commit] + dumps);
    CountAppend([Publish(i, true)], [Commit] + dumps, Commit);
    CountAppend([Commit], dumps, Commit);
    CountAppend([Publish(i, true)], [Commit] + dumps, Dump);
    CountAppend([Commit], dumps, Dump);
  }

  /** A failed attempt and its wait neither commit nor dump. */
  lemma FailureCounts(i: nat, backoff: nat, rest: seq<Call>)
    ensures Count([Publish(i, false), Backoff(backoff)] + rest, Commit) == Count(rest, Commit)
    ensures Count([Publish(i, false), Backoff(backoff)] + rest, Dump) == Count(rest, Dump)
  {
    CountAppend([Publish(i, false), Backoff(backoff)], rest, Commit);
    CountAppend([Publish(i, false), Backoff(backoff)], rest, Dump);
  }

  /** The call at position p of a run of failed attempts starting at attempt i: each attempt, then its wait. */
  function FailedCall(cfg: Config, i: nat, p: nat): (c: Call)
    ensures p % 2 == 0 ==> c == Publish(i + p / 2, false)
    ensures p % 2 == 1 ==> c == Backoff(BackoffAt(cfg, i + p / 2))
    decreases p
  {
    if p == 0 then Publish(i, false)
    else if p == 1 then Backoff(BackoffAt(cfg, i))
    else FailedCall(cfg, i + 1, p - 2)
  }

  /** The first n calls of a trace are the failed attempts i, i + 1, ... with their waits. */
  predicate FailedRun(cfg: Config, calls: seq<Call>, i: nat, n: nat)
  {
    n <= |calls| && forall p | 0 <= p < n :: calls[p] == FailedCall(cfg, i, p)
  }

  lemma FailedRunCons(cfg: Config, i: nat, rest: seq<Call>, n: nat)
    requires FailedRun(cfg, rest, i + 1, n)
    ensures FailedRun(cfg, [Publish(i, false), Backoff(BackoffAt(cfg, i))] + rest, i, n + 2)
  {
    var d := [Publish(i, false), Backoff(BackoffAt(cfg, i))] + rest;
    forall p | 0 <= p < n + 2
      ensures d[p] == FailedCall(cfg, i, p)
    {
      if p >= 2 {
        assert d[p] == rest[p - 2] == FailedCall(cfg, i + 1, p - 2);
      }
    }
  }

  /**
   * The attempts of a block up to the first one that stops the loop: attempt i + k
   * fails and is followed by the wait BackoffAt(i + k); after the stopping attempt
   * nothing more is published.
   */
  lemma {:induction false} RetryTrace(cfg: Config, r: Round, i: nat, okN: nat)
    requires cfg.Valid() && i <= cfg.maxRetries
    ensures var f := FirstStop(r, i, cfg.maxRetries);
            var d := Retry(cfg, r, i, BackoffAt(cfg, i), okN);
            && Publishes(d.calls) == (if f == cfg.maxRetries then f - i else f - i + 1)
            && FailedRun(cfg, d.calls, i, 2 * (f - i))
    decreases cfg.maxRetries - i
  {
    if i < cfg.maxRetries && FailsQuietly(r, i) {
      var rest := Retry(cfg, r, i + 1, BackoffAt(cfg, i + 1), okN);
      RetryTrace(cfg, r, i + 1, okN);
      RetryFails(cfg, r, i, BackoffAt(cfg, i), okN);
      PublishesAppend([Publish(i, false), Backoff(BackoffAt(cfg, i))], rest.calls);
      FailedRunCons(cfg, i, rest.calls, 2 * (FirstStop(r, i + 1, cfg.maxRetries) - (i + 1)));
    } else if i < cfg.maxRetries && r.published(i) {
      PublishedOnce(i, if (okN + 1) % cfg.dumpPerBlocks == 0 then [Dump] else []);
    }
  }

  /** A quietly failing attempt publishes, waits and hands over to the next attempt with the doubled wait. */
  lemma RetryFails(cfg: Config, r: Round, i: nat, backoff: nat, okN: nat)
    requires cfg.Valid() && i < cfg.maxRetries && FailsQuietly(r, i)
    ensures var rest := Retry(cfg, r, i + 1, NextBackoff(cfg, backoff), okN);
            Retry(cfg, r, i, backoff, okN) == Retries([Publish(i, false), Backoff(backoff)] + rest.calls, rest.okN, rest.end)
    ensures FirstStop(r, i, cfg.maxRetries) == FirstStop(r, i + 1, cfg.maxRetries)
  {
  }

  /** An attempt that succeeds commits, dumps when the new count is a multiple of dumpPerBlocks, and ends the loop. */
  lemma RetrySucceeds(cfg: Config, r: Round, i: nat, backoff: nat, okN: nat)
    requires cfg.Valid() && i < cfg.maxRetries && r.published(i)
    ensures Retry(cfg, r, i, backoff, okN)
         == Retries([Publish(i, true), Commit] + (if (okN + 1) % cfg.dumpPerBlocks == 0 then [Dump] else []), okN + 1, Published)
  {
  }

  /** A failed attempt followed by quit during its backoff ends the loop. */
  lemma RetryQuits(cfg: Config, r: Round, i: nat, backoff: nat, okN: nat)
    requires cfg.Valid() && i < cfg.maxRetries && !r.published(i) && r.quitInBackoff(i)
    ensures Retry(cfg, r, i, backoff, okN) == Retries([Publish(i, false)], okN, QuitWaiting)
  {
  }

  /** Moving the calls made at the head of the remaining loop onto the trace. */
  lemma Regroup(pre: seq<Call>, b: Call, tail: seq<Call>)
    requires |pre| > 0
    ensures pre + [b] + tail == pre[..|pre| - 1] + ([pre[|pre| - 1], b] + tail)
  {
  }

  /** A block whose every attempt fails: exactly maxRetries attempts, each followed by its backoff wait. */
  lemma AllAttemptsFail(cfg: Config, r: Round, okN: nat)
    requires cfg.Valid() && cfg.maxRetries > 0
    requires forall k | 0 <= k < cfg.maxRetries :: FailsQuietly(r, k)
    ensures var d := Retry(cfg, r, 0, cfg.initialBackoff, okN);
            && d.end == GaveUp && d.okN == okN
            && Publishes(d.calls) == cfg.maxRetries
            && |d.calls| == 2 * cfg.maxRetries
            && FailedRun(cfg, d.calls, 0, |d.calls|)
            && Commit !in d.calls
  {
    assert FirstStop(r, 0, cfg.maxRetries) == cfg.maxRetries;
    RetryOutcome(cfg, r, 0, cfg.initialBackoff, okN);
    RetryTrace(cfg, r, 0, okN);
    var d := Retry(cfg, r, 0, cfg.initialBackoff, okN);
    RetryLength(cfg, r, 0, BackoffAt(cfg, 0), okN);
  }

  /** From attempt i on, at most maxRetries - i publishes; giving up takes exactly two calls per attempt. */
  lemma {:induction false} RetryLength(cfg: Config, r: Round, i: nat, backoff: nat, okN: nat)
    requires cfg.Valid() && i <= cfg.maxRetries
    ensures var d := Retry(cfg, r, i, backoff, okN);
            && Publishes(d.calls) <= cfg.maxRetries - i
            && (d.end == GaveUp ==> |d.calls| == 2 * (cfg.maxRetries - i))
    decreases cfg.maxRetries - i
  {
    var d := Retry(cfg, r, i, backoff, okN);
    if i < cfg.maxRetries && FailsQuietly(r, i) {
      var rest := Retry(cfg, r, i + 1, NextBackoff(cfg, backoff), okN);
      RetryLength(cfg, r, i + 1, NextBackoff(cfg, backoff), okN);
      PublishesAppend([Publish(i, false), Backoff(backoff)], rest.calls);
    } else if i < cfg.maxRetries && r.published(i) {
      PublishedOnce(i, if (okN + 1) % cfg.dumpPerBlocks == 0 then [Dump] else []);
    }
  }

  // ---------------------------------------------------------------------------
  // One turn of the loop, and the loop

  /** The pump's counters and the queue's flag, with the trace of calls so far. */
  datatype PumpState = PumpState(okN: nat, failN: nat, emptyInflight: bool, calls: seq<Call>)

  /** The state after a turn, and the reason the pump returns, if it does. */
  datatype Step = Step(st: PumpState, exit: Option<Exit>)

  /** One turn of the `for` loop of pump(). */
  function RunRound(cfg: Config, r: Round, s: PumpState): Step
    requires cfg.Valid()
  {
    if r.quitAtTop then Step(s, Some(Quit))
    else
      var s1 := s.(calls := s.calls + [Next(r.next)]);
      match r.next
      case Fetched =>
        var d := Retry(cfg, r, 0, cfg.initialBackoff, s.okN);
        var s2 := s1.(emptyInflight := false, okN := d.okN, calls := s1.calls + d.calls);
        if d.end == QuitWaiting then Step(s2, Some(Quit))
        else if d.end == GaveUp then
          Step(s2.(failN := if r.rollbackOk then s2.failN else s2.failN + 1,
                   calls := s2.calls + [Rollback(r.rollbackOk)]), None)
        else Step(s2, None)
      case QueueNotOpen => Step(s1, Some(NotOpen))
      case EndOfQueue =>
        var s2 := s1.(emptyInflight := true);
        if r.quitWhileIdle then Step(s2, Some(Quit)) else Step(s2.(calls := s2.calls + [PollWait]), None)
      case SegmentCorrupt => Step(s1.(calls := s1.calls + [SkipSegment]), None)
      case OtherError => Step(s1.(calls := s1.calls + [SkipSegment]), None)
  }

  /**
   * The loop over a script of turns; on return the deferred function dumps the cursor
   * and releases the wait group. A script that runs out ends the model with no exit.
   */
  function RunPump(cfg: Config, script: seq<Round>, s: PumpState): Step
    requires cfg.Valid()
    decreases |script|
  {
    if script == [] then Step(s, None)
    else
      var t := RunRound(cfg, script[0], s);
      if t.exit.Some? then Step(t.st.(calls := t.st.calls + [Dump, Done]), t.exit)
      else RunPump(cfg, script[1..], t.st)
  }

  /** The turn fetched a block and all maxRetries attempts on it failed without quit: it must be rolled back. */
  predicate RollsBack(cfg: Config, r: Round)
  {
    && !r.quitAtTop && r.next == Fetched && cfg.maxRetries > 0
    && FirstStop(r, 0, cfg.maxRetries) == cfg.maxRetries
  }

  /** The turn fetched a block and one of its attempts succeeded before any quit. */
  predicate Delivers(cfg: Config, r: Round)
  {
    && !r.quitAtTop && r.next == Fetched
    && var f := FirstStop(r, 0, cfg.maxRetries);
       f < cfg.maxRetries && r.published(f)
  }

  /** The turn fetched a block and quit was seen during the backoff after a failed attempt. */
  predicate QuitsWaiting(cfg: Config, r: Round)
  {
    var f := FirstStop(r, 0, cfg.maxRetries);
    f < cfg.maxRetries && !r.published(f)
  }

  /**
   * The counters of one turn: okN grows by the commits made, and there is one commit
   * exactly when an attempt succeeded; the cursor is dumped iff the new okN is a
   * multiple of dumpPerBlocks; a rollback happens exactly when every attempt failed,
   * and failN grows only when that rollback itself fails.
   */
  lemma RoundCounters(cfg: Config, r: Round, s: PumpState)
    requires cfg.Valid()
    ensures var t := RunRound(cfg, r, s);
            s.calls <= t.st.calls
    ensures var t := RunRound(cfg, r, s);
            var added := t.st.calls[|s.calls|..];
            && Count(added, Commit) == (if Delivers(cfg, r) then 1 else 0)
            && t.st.okN == s.okN + Count(added, Commit)
            && Count(added, Dump) == (if Delivers(cfg, r) && (s.okN + 1) % cfg.dumpPerBlocks == 0 then 1 else 0)
            && Count(added, Rollback(true)) == (if RollsBack(cfg, r) && r.rollbackOk then 1 else 0)
            && Count(added, Rollback(false)) == (if RollsBack(cfg, r) && !r.rollbackOk then 1 else 0)
            && t.st.failN == s.failN + Count(added, Rollback(false))
  {
    var t := RunRound(cfg, r, s);
    if !r.quitAtTop && r.next == Fetched {
      var d := Retry(cfg, r, 0, cfg.initialBackoff, s.okN);
      RetryOutcome(cfg, r, 0, cfg.initialBackoff, s.okN);
      assert d.end == Published <==> Delivers(cfg, r);
      assert d.end == GaveUp <==> RollsBack(cfg, r);
      var tail: seq<Call> := if d.end == GaveUp then [Rollback(r.rollbackOk)] else [];
      FetchedRound(cfg, r, s, tail);
      FetchedCounts(cfg, r, s.okN, tail, t.st.calls[|s.calls|..]);
    } else if !r.quitAtTop {
      NoDeliveryRound(cfg, r, s);
    } else {
      assert t.st.calls[|s.calls|..] == [];
    }
  }

  /** A turn whose Next gave an error publishes nothing, so it neither commits, dumps nor rolls back. */
  lemma NoDeliveryRound(cfg: Config, r: Round, s: PumpState)
    requires cfg.Valid() && !r.quitAtTop && r.next != Fetched
    ensures var t := RunRound(cfg, r, s);
            && s.calls <= t.st.calls && t.st.okN == s.okN && t.st.failN == s.failN
            && var added := t.st.calls[|s.calls|..];
               Count(added, Commit) == 0 && Count(added, Dump) == 0
               && Count(added, Rollback(true)) == 0 && Count(added, Rollback(false)) == 0
  {
    var t := RunRound(cfg, r, s);
    var added := t.st.calls[|s.calls|..];
    assert added == [Next(r.next)] || added == [Next(r.next), PollWait] || added == [Next(r.next), SkipSegment];
    CountAbsent(added, Commit);
    CountAbsent(added, Dump);
    CountAbsent(added, Rollback(true));
    CountAbsent(added, Rollback(false));
  }

  /** The state after a turn that fetched a block. */
  lemma FetchedRound(cfg: Config, r: Round, s: PumpState, tail: seq<Call>)
    requires cfg.Valid() && !r.quitAtTop && r.next == Fetched
    requires var d := Retry(cfg, r, 0, cfg.initialBackoff, s.okN);
             tail == if d.end == GaveUp then [Rollback(r.rollbackOk)] else []
    ensures var d := Retry(cfg, r, 0, cfg.initialBackoff, s.okN);
            var t := RunRound(cfg, r, s);
            && t.st.calls == s.calls + ([Next(Fetched)] + (d.calls + tail))
            && t.st.calls[|s.calls|..] == [Next(Fetched)] + (d.calls + tail)
            && t.st.okN == d.okN
            && t.st.failN == s.failN + (if d.end == GaveUp && !r.rollbackOk then 1 else 0)
  {
  }

  /** The calls of a turn that fetched a block: Next, the retry loop, and a possible rollback. */
  lemma FetchedCounts(cfg: Config, r: Round, okN: nat, tail: seq<Call>, added: seq<Call>)
    requires cfg.Valid()
    requires tail == [] || tail == [Rollback(r.rollbackOk)]
    requires added == [Next(Fetched)] + (Retry(cfg, r, 0, cfg.initialBackoff, okN).calls + tail)
    ensures var d := Retry(cfg, r, 0, cfg.initialBackoff, okN);
            && Count(added, Commit) == Count(d.calls, Commit)
            && Count(added, Dump) == Count(d.calls, Dump)
            && Count(added, Rollback(r.rollbackOk)) == |tail|
            && Count(added, Rollback(!r.rollbackOk)) == 0
            && Count(added, SkipSegment) == 0 && Count(added, Done) == 0
  {
    var d := Retry(cfg, r, 0, cfg.initialBackoff, okN);
    RetryCallKinds(cfg, r, 0, cfg.initialBackoff, okN);
    CountAbsent(d.calls, Rollback(true));
    CountAbsent(d.calls, Rollback(false));
    CountAbsent(d.calls, SkipSegment);
    CountAbsent(d.calls, Done);
    forall c: Call
      ensures Count(added, c) == Count([Next(Fetched)], c) + Count(d.calls, c) + Count(tail, c)
    {
      CountAppend([Next(Fetched)], d.calls + tail, c);
      CountAppend(d.calls, tail, c);
    }
    CountAbsent([Next(Fetched)], Commit);
    CountAbsent([Next(Fetched)], Dump);
    CountAbsent([Next(Fetched)], Rollback(true));
    CountAbsent([Next(Fetched)], Rollback(false));
    CountAbsent([Next(Fetched)], SkipSegment);
    CountAbsent([Next(Fetched)], Done);
    CountAbsent(tail, SkipSegment);
    CountAbsent(tail, Done);
    CountAbsent(tail, Commit);
    CountAbsent(tail, Dump);
    CountAbsent(tail, Rollback(!r.rollbackOk));
    if tail != [] {
      assert tail[1..] == [];
    }
  }

  /** The retry loop only publishes, waits, commits and dumps; the rest is left to the turn. */
  lemma {:induction false} RetryCallKinds(cfg: Config, r: Round, i: nat, backoff: nat, okN: nat)
    requires cfg.Valid()
    ensures forall c | c in Retry(cfg, r, i, backoff, okN).calls :: c.Publish? || c.Backoff? || c == Commit || c == Dump
    decreases cfg.maxRetries - i
  {
    if i < cfg.maxRetries && FailsQuietly(r, i) {
      RetryCallKinds(cfg, r, i + 1, NextBackoff(cfg, backoff), okN);
    }
  }

  /**
   * The dispatch of one turn on quit and on Next's result: emptyInflight is cleared
   * when a block is fetched and set at end of queue; the pump returns when the queue
   * is not open, or when quit is seen at the top, during a backoff or while idle.
   */
  lemma RoundDispatch(cfg: Config, r: Round, s: PumpState)
    requires cfg.Valid()
    ensures var t := RunRound(cfg, r, s);
            && (t.exit == Some(NotOpen) <==> !r.quitAtTop && r.next == QueueNotOpen)
            && (t.exit == Some(Quit) <==>
                  || r.quitAtTop
                  || (r.next == Fetched && QuitsWaiting(cfg, r))
                  || (r.next == EndOfQueue && r.quitWhileIdle))
            && (!r.quitAtTop && r.next == Fetched ==> !t.st.emptyInflight)
            && (!r.quitAtTop && r.next == EndOfQueue ==> t.st.emptyInflight)
            && (r.quitAtTop || r.next !in {Fetched, EndOfQueue} ==> t.st.emptyInflight == s.emptyInflight)
  {
    if !r.quitAtTop && r.next == Fetched {
      RetryOutcome(cfg, r, 0, cfg.initialBackoff, s.okN);
    }
  }

  /**
   * A corrupt segment or any other error from Next skips the segment, once, and the
   * loop goes on; no turn by itself releases the wait group.
   */
  lemma RoundSkips(cfg: Config, r: Round, s: PumpState)
    requires cfg.Valid()
    ensures var t := RunRound(cfg, r, s);
            s.calls <= t.st.calls
    ensures var t := RunRound(cfg, r, s);
            var added := t.st.calls[|s.calls|..];
            && Count(added, SkipSegment) == (if !r.quitAtTop && r.next in {SegmentCorrupt, OtherError} then 1 else 0)
            && Count(added, Done) == 0
  {
    var t := RunRound(cfg, r, s);
    if r.quitAtTop {
      assert t.st.calls[|s.calls|..] == [];
    } else if r.next == Fetched {
      var d := Retry(cfg, r, 0, cfg.initialBackoff, s.okN);
      var tail: seq<Call> := if d.end == GaveUp then [Rollback(r.rollbackOk)] else [];
      FetchedRound(cfg, r, s, tail);
      FetchedCounts(cfg, r, s.okN, tail, t.st.calls[|s.calls|..]);
    } else {
      ErrorRoundSkips(cfg, r, s);
    }
  }

  /** The calls of a turn whose Next gave an error. */
  lemma ErrorRoundSkips(cfg: Config, r: Round, s: PumpState)
    requires cfg.Valid() && !r.quitAtTop && r.next != Fetched
    ensures var t := RunRound(cfg, r, s);
            && s.calls <= t.st.calls
            && var added := t.st.calls[|s.calls|..];
               && Count(added, SkipSegment) == (if r.next in {SegmentCorrupt, OtherError} then 1 else 0)
               && Count(added, Done) == 0
  {
    var t := RunRound(cfg, r, s);
    var added := t.st.calls[|s.calls|..];
    var extra: seq<Call> := if r.next in {SegmentCorrupt, OtherError} then [SkipSegment]
                           else if r.next == EndOfQueue && !r.quitWhileIdle then [PollWait] else [];
    assert added == [Next(r.next)] + extra;
    CountAppend([Next(r.next)], extra, SkipSegment);
    CountAppend([Next(r.next)], extra, Done);
    CountAbsent([Next(r.next)], SkipSegment);
    CountAbsent([Next(r.next)], Done);
    CountAbsent(extra, Done);
    if extra != [SkipSegment] {
      CountAbsent(extra, SkipSegment);
    } else {
      assert extra[1..] == [];
    }
  }

  /**
   * Over a whole run: okN counts the commits and failN the failed rollbacks made since
   * the start; the wait group is released at most once, exactly when the pump returns,
   * and every return ends with the deferred cursor dump followed by wg.Done().
   */
  lemma {:induction false} PumpRun(cfg: Config, script: seq<Round>, s: PumpState)
    requires cfg.Valid()
    ensures var t := RunPump(cfg, script, s);
            s.calls <= t.st.calls
    ensures var t := RunPump(cfg, script, s);
            var added := t.st.calls[|s.calls|..];
            && t.st.okN == s.okN + Count(added, Commit)
            && t.st.failN == s.failN + Count(added, Rollback(false))
            && Count(added, Done) == (if t.exit.Some? then 1 else 0)
            && (t.exit.Some? ==> |added| >= 2 && added[|added| - 2..] == [Dump, Done])
    decreases |script|
  {
    var t := RunPump(cfg, script, s);
    if script == [] {
      assert t.st.calls[|s.calls|..] == [];
    } else {
      var t1 := RunRound(cfg, script[0], s);
      RoundKeeps(cfg, script[0], s);
      if t1.exit.None? {
        PumpRun(cfg, script[1..], t1.st);
      }
      RunAccounts(s, t1, t);
    }
  }

  /** What a run owes its caller: the counters match the trace, and Done is called once, last, iff it returned. */
  predicate Accounted(s: PumpState, t: Step)
  {
    && s.calls <= t.st.calls
    && var added := t.st.calls[|s.calls|..];
       && t.st.okN == s.okN + Count(added, Commit)
       && t.st.failN == s.failN + Count(added, Rollback(false))
       && Count(added, Done) == (if t.exit.Some? then 1 else 0)
       && (t.exit.Some? ==> |added| >= 2 && added[|added| - 2..] == [Dump, Done])
  }

  /** A single turn accounts for its counters and never calls Done. */
  lemma RoundKeeps(cfg: Config, r: Round, s: PumpState)
    requires cfg.Valid()
    ensures var t := RunRound(cfg, r, s);
            && s.calls <= t.st.calls
            && var added := t.st.calls[|s.calls|..];
               && t.st.okN == s.okN + Count(added, Commit)
               && t.st.failN == s.failN + Count(added, Rollback(false))
               && Count(added, Done) == 0
  {
    RoundCounters(cfg, r, s);
    RoundSkips(cfg, r, s);
  }

  /** A turn followed by the epilogue, or by an accounted rest of the run, is accounted. */
  lemma RunAccounts(s: PumpState, t1: Step, t: Step)
    requires s.calls <= t1.st.calls
    requires var added := t1.st.calls[|s.calls|..];
             && t1.st.okN == s.okN + Count(added, Commit)
             && t1.st.failN == s.failN + Count(added, Rollback(false))
             && Count(added, Done) == 0
    requires t1.exit.Some? ==> t == Step(t1.st.(calls := t1.st.calls + [Dump, Done]), t1.exit)
    requires t1.exit.None? ==> Accounted(t1.st, t)
    ensures Accounted(s, t)
  {
    if t1.exit.Some? {
      SplitCounts(s.calls, t1.st.calls, t.st.calls);
      Epilogue(t1.st.calls);
    } else {
      SplitCounts(s.calls, t1.st.calls, t.st.calls);
    }
  }

  /** The calls added over two stretches of a trace are those of each stretch together. */
  lemma SplitCounts(x: seq<Call>, y: seq<Call>, z: seq<Call>)
    requires x <= y <= z
    ensures forall c :: Count(z[|x|..], c) == Count(y[|x|..], c) + Count(z[|y|..], c)
  {
    assert z[|x|..] == y[|x|..] + z[|y|..];
    forall c ensures Count(z[|x|..], c) == Count(y[|x|..], c) + Count(z[|y|..], c) {
      CountAppend(y[|x|..], z[|y|..], c);
    }
  }

  /** The deferred epilogue dumps the cursor and releases the wait group once; it commits and rolls back nothing. */
  lemma Epilogue(pre: seq<Call>)
    ensures var e := (pre + [Dump, Done])[|pre|..];
            && e == [Dump, Done]
            && Count(e, Commit) == 0 && Count(e, Rollback(false)) == 0 && Count(e, Done) == 1
  {
    var e: seq<Call> := [Dump, Done];
    assert (pre + [Dump, Done])[|pre|..] == e;
    assert e[1..] == [Done] && e[1..][1..] == [];
  }

  // ---------------------------------------------------------------------------
  // The queue and its pump

  /** The part of the queue the pump touches: its flag and, as a trace, the calls made on it. */
  class Queue {
    var emptyInflight: bool
    ghost var calls: seq<Call>

    constructor ()
      ensures !emptyInflight && calls == []
    {
      emptyInflight := false;
      calls := [];
    }

    /** One turn of pump()'s `for` loop; `exit` is set when the pump returns. */
    method Iterate(cfg: Config, r: Round, okN0: nat, failN0: nat) returns (okN: nat, failN: nat, exit: Option<Exit>)
      requires cfg.Valid()
      modifies this
      ensures RunRound(cfg, r, PumpState(okN0, failN0, old(emptyInflight), old(calls)))
           == Step(PumpState(okN, failN, emptyInflight, calls), exit)
    {
      okN, failN, exit := okN0, failN0, None;
      if r.quitAtTop {
        exit := Some(Quit);
        return;
      }
      var res := r.next;
      calls := calls + [Next(res)];
      match res {
        case Fetched =>
          emptyInflight := false;
          var failing, quit;
          okN, failing, quit := Deliver(cfg, r, okN0);
          if quit {
            exit := Some(Quit);
            return;
          }
          if !failing {
            return;
          }
          calls := calls + [Rollback(r.rollbackOk)];
          if !r.rollbackOk {
            failN := failN + 1;
          }
        case QueueNotOpen =>
          exit := Some(NotOpen);
        case EndOfQueue =>
          emptyInflight := true;
          if r.quitWhileIdle {
            exit := Some(Quit);
          } else {
            calls := calls + [PollWait];
          }
        case SegmentCorrupt =>
          calls := calls + [SkipSegment];
        case OtherError =>
          calls := calls + [SkipSegment];
      }
    }

    /**
     * The retry loop of a fetched block: publishes with doubling backoff until an attempt
     * succeeds, every attempt failed (`failing`), or quit is seen during a backoff (`quit`).
     */
    method Deliver(cfg: Config, r: Round, okN0: nat) returns (okN: nat, failing: bool, quit: bool)
      requires cfg.Valid()
      modifies this
      ensures var d := Retry(cfg, r, 0, cfg.initialBackoff, okN0);
              && calls == old(calls) + d.calls && okN == d.okN
              && (quit <==> d.end == QuitWaiting) && (!quit ==> (failing <==> d.end == GaveUp))
      ensures emptyInflight == old(emptyInflight)
    {
      okN, failing, quit := okN0, false, false;
      ghost var base := calls;
      ghost var goal := Retry(cfg, r, 0, cfg.initialBackoff, okN0);
      var backoff: nat := cfg.initialBackoff;
      var retries := 0;
      while retries < cfg.maxRetries
        invariant retries <= cfg.maxRetries && okN == okN0 && emptyInflight == old(emptyInflight)
        invariant failing <==> retries > 0
        invariant calls + Retry(cfg, r, retries, backoff, okN0).calls == base + goal.calls
        invariant Retry(cfg, r, retries, backoff, okN0).okN == goal.okN
        invariant Retry(cfg, r, retries, backoff, okN0).end == goal.end
        decreases cfg.maxRetries - retries
      {
        if r.published(retries) {
          RetrySucceeds(cfg, r, retries, backoff, okN);
          calls := calls + [Publish(retries, true), Commit];
          okN := okN + 1;
          if okN % cfg.dumpPerBlocks == 0 {
            calls := calls + [Dump];
          }
          failing := false;
          return;
        }
        failing := true;
        calls := calls + [Publish(retries, false)];
        if r.quitInBackoff(retries) {
          RetryQuits(cfg, r, retries, backoff, okN);
          quit := true;
          return;
        }
        RetryFails(cfg, r, retries, backoff, okN);
        Regroup(calls, Backoff(backoff), Retry(cfg, r, retries + 1, NextBackoff(cfg, backoff), okN).calls);
        calls := calls + [Backoff(backoff)];
        backoff := backoff * 2;
        if backoff >= cfg.maxBackoff {
          backoff := cfg.maxBackoff;
        }
        retries := retries + 1;
      }
    }

    /** pump(): runs the loop over the script; on return dumps the cursor and calls wg.Done(). */
    method Pump(cfg: Config, script: seq<Round>) returns (okN: nat, failN: nat, exit: Option<Exit>)
      requires cfg.Valid()
      modifies this
      ensures RunPump(cfg, script, PumpState(0, 0, old(emptyInflight), old(calls)))
           == Step(PumpState(okN, failN, emptyInflight, calls), exit)
    {
      okN, failN, exit := 0, 0, None;
      ghost var goal := RunPump(cfg, script, PumpState(0, 0, emptyInflight, calls));
      var k := 0;
      while k < |script| && exit.None?
        invariant k <= |script|
        invariant exit.None? ==> RunPump(cfg, script[k..], PumpState(okN, failN, emptyInflight, calls)) == goal
        invariant exit.Some? ==> goal == Step(PumpState(okN, failN, emptyInflight, calls + [Dump, Done]), exit)
        decreases |script| - k
      {
        assert script[k..][0] == script[k] && script[k..][1..] == script[k + 1..];
        okN, failN, exit := Iterate(cfg, script[k], okN, failN);
        k := k + 1;
      }
      if exit.Some? {
        calls := calls + [Dump, Done];
      }
    }
  }
}
