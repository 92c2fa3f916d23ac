/** The retransmission timer of net/golioth/coap_req.c (sections 4.2 and 4.8 of RFC 7252):
    32-bit fields, a wrapping comparison, and the ideal schedule in unbounded time they implement. */
module Backoff {
  import opened Common

  // Four doublings of the initial timeout stay below 2^31 ms.
  type AckTimeout = a: int | 0 < a < 0x0800_0000 witness 2000

  /** `struct golioth_coap_pending`, with the timeout `init_ack_timeout` draws for this exchange in `ack`. */
  datatype Pending = Pending(t0: uint32, timeout: uint32, retries: nat, ack: AckTimeout)

  function PendingInit(clock: int, ack: AckTimeout): Pending
  {
    Pending(Wrap32(clock), 0, 3, ack)
  }

  /** Signed 32-bit distance from `now` to the deadline, subtraction wrapping. */
  function Remaining(p: Pending, now: int): int
  {
    ToSigned(p.t0 + p.timeout - now)
  }

  /** One cycle of the timer; `None` when the retries are used up. */
  function Cycle(p: Pending): Option<Pending>
  {
    if p.timeout == 0 then Some(p.(timeout := p.ack))
    else if p.retries == 0 then None
    else Some(p.(t0 := Wrap32(p.t0 + p.timeout), timeout := Wrap32(p.timeout * 2), retries := p.retries - 1))
  }

  datatype PollResult = GiveUp | Wait(pending: Pending, send: bool, remaining: int)

  /** The cycles one poll at `now` makes. `send` tells whether one was made already. */
  function Poll(p: Pending, now: int, send: bool): PollResult
    decreases p.retries, p.timeout == 0
  {
    if Remaining(p, now) > 0 then Wait(p, send, Remaining(p, now))
    else match Cycle(p)
      case None => GiveUp
      case Some(q) => Poll(q, now, true)
  }

  // ----- The ideal schedule, in unbounded time

  /** 2^s for the five stages of an exchange. */
  function Pow2(s: nat): (r: nat)
    ensures r >= 1
  {
    if s == 0 then 1 else 2 * Pow2(s - 1)
  }

  /** Stage 0 is a request not sent yet; stages 1 to 4 have been sent that many times. */
  function Deadline(start: int, ack: AckTimeout, stage: nat): int
  {
    start + ack * (Pow2(stage) - 1)
  }

  function Ideal(start: int, ack: AckTimeout, stage: nat): Pending
    requires stage <= 4
  {
    if stage == 0 then PendingInit(start, ack)
    else
      PowersBelow16(stage);
      Pending(Wrap32(Deadline(start, ack, stage - 1)), ack * Pow2(stage - 1), 4 - stage, ack)
  }

  lemma PowersBelow16(stage: nat)
    requires stage <= 4
    ensures Pow2(stage) == [1, 2, 4, 8, 16][stage]
    ensures stage > 0 ==> Pow2(stage - 1) == [1, 2, 4, 8, 16][stage - 1]
  {
    assert Pow2(0) == 1 && Pow2(1) == 2 && Pow2(2) == 4 && Pow2(3) == 8;
    assert Pow2(4) == 16;
  }

  /** The first stage from `stage` on whose deadline is after `now`; 5 when there is none. */
  function StageFrom(start: int, ack: AckTimeout, stage: nat, now: int): (s: nat)
    requires stage <= 5
    ensures stage <= s <= 5
    decreases 5 - stage
  {
    if stage == 5 || now < Deadline(start, ack, stage) then stage
    else StageFrom(start, ack, stage + 1, now)
  }

  predicate LagBelowHalf(deadline: int, now: int)
  {
    -HALF32 < deadline - now < HALF32
  }

  /** The wrapping comparison tells "expired" exactly when the lag, reduced to 32 bits, is at most 2^31. */
  lemma ComparisonExact(deadline: int, now: int)
    ensures ToSigned(deadline - now) <= 0 <==> (now - deadline) % MOD32 <= HALF32
    ensures LagBelowHalf(deadline, now) ==> ToSigned(deadline - now) == deadline - now
  {
    var lag := now - deadline;
    NegatedRemainder(lag);
    assert deadline - now == -lag;
  }

  lemma NegatedRemainder(x: int)
    ensures (-x) % MOD32 == if x % MOD32 == 0 then 0 else MOD32 - x % MOD32
  {
    var q, m := x / MOD32, x % MOD32;
    assert x == q * MOD32 + m;
    assert -x == (-q) * MOD32 - m == (-q - 1) * MOD32 + (MOD32 - m);
  }

  /** A request left unpolled for more than 2^31 ms past its deadline looks as if it were still waiting. */
  lemma LongLagMissesTheDeadline()
    ensures var p := PendingInit(0, 2000); Poll(p, HALF32 + 1, false) == Wait(p, false, HALF32 - 1)
  {
    assert Remaining(PendingInit(0, 2000), HALF32 + 1) == HALF32 - 1;
  }

  /** One poll moves the 32-bit timer to the ideal stage for `now`, sends exactly when the stage rises,
      and gives up exactly when the last deadline, start + 15 * ack, has passed. */
  lemma {:induction false} PollFollowsIdeal(start: int, ack: AckTimeout, stage: nat, now: int, send: bool)
    requires stage <= 4 && LagBelowHalf(Deadline(start, ack, stage), now)
    ensures var s := StageFrom(start, ack, stage, now);
      Poll(Ideal(start, ack, stage), now, send) ==
        if s == 5 then GiveUp
        else Wait(Ideal(start, ack, s), send || s > stage, Deadline(start, ack, s) - now)
    decreases 4 - stage
  {
    RemainingOfIdeal(start, ack, stage, now);
    if now >= Deadline(start, ack, stage) {
      CycleOfIdeal(start, ack, stage);
      if stage < 4 {
        NextDeadline(start, ack, stage);
        PollFollowsIdeal(start, ack, stage + 1, now, true);
      }
    }
  }

  lemma NextDeadline(start: int, ack: AckTimeout, stage: nat)
    requires stage < 4
    ensures Deadline(start, ack, stage) < Deadline(start, ack, stage + 1) < Deadline(start, ack, stage) + HALF32
  {
    PowersBelow16(stage);
    PowersBelow16(stage + 1);
  }

  lemma RemainingOfIdeal(start: int, ack: AckTimeout, stage: nat, now: int)
    requires stage <= 4 && LagBelowHalf(Deadline(start, ack, stage), now)
    ensures Remaining(Ideal(start, ack, stage), now) == Deadline(start, ack, stage) - now
  {
    var p := Ideal(start, ack, stage);
    var d := Deadline(start, ack, stage);
    PowersBelow16(stage);
    assert (p.t0 + p.timeout - now) % MOD32 == (d - now) % MOD32 by {
      var before := if stage == 0 then start else Deadline(start, ack, stage - 1);
      assert d == before + p.timeout;
      ModShift(before, p.timeout - now);
    }
    ComparisonExact(d, now);
  }

  lemma ModShift(a: int, b: int)
    ensures (a % MOD32 + b) % MOD32 == (a + b) % MOD32
  {
    var q := a / MOD32;
    assert a == q * MOD32 + a % MOD32;
    assert a + b == q * MOD32 + (a % MOD32 + b);
  }

  lemma CycleOfIdeal(start: int, ack: AckTimeout, stage: nat)
    requires stage <= 4
    ensures Cycle(Ideal(start, ack, stage)) == if stage == 4 then None else Some(Ideal(start, ack, stage + 1))
  {
    PowersBelow16(stage);
    if 0 < stage < 4 {
      PowersBelow16(stage + 1);
      var before := Deadline(start, ack, stage - 1);
      ModShift(before, ack * Pow2(stage - 1));
      assert Deadline(start, ack, stage) == before + ack * Pow2(stage - 1);
    }
  }

  // ----- Any polling pattern

  /** `polls` polls one after the other; the pending state at the end (none after a give-up) and the sends made. */
  function PollAll(p: Pending, polls: seq<int>): (Option<Pending>, nat)
  {
    if polls == [] then (Some(p), 0)
    else
      var (before, sends) := PollAll(p, polls[..|polls| - 1]);
      match before
      case None => (None, sends)
      case Some(q) =>
        match Poll(q, polls[|polls| - 1], false)
        case GiveUp => (None, sends)
        case Wait(r, send, _) => (Some(r), if send then sends + 1 else sends)
  }

  predicate NonDecreasing(polls: seq<int>)
  {
    forall i, j :: 0 <= i < j < |polls| ==> polls[i] <= polls[j]
  }

  /** Every poll comes less than 2^31 ms after the deadline then current. */
  ghost predicate Prompt(start: int, ack: AckTimeout, polls: seq<int>)
  {
    && (|polls| > 0 ==> LagBelowHalf(start, polls[0]))
    && forall i :: 0 < i < |polls| ==>
         var s := StageFrom(start, ack, 0, polls[i - 1]);
         s < 5 ==> polls[i] < Deadline(start, ack, s) + HALF32
  }

  lemma EndStages(start: int, ack: AckTimeout)
    ensures Deadline(start, ack, 0) == start && Ideal(start, ack, 0) == PendingInit(start, ack)
    ensures Deadline(start, ack, 4) == start + 15 * ack
  {
    PowersBelow16(4);
  }

  /** However a request is polled, its timer depends only on the time of the last poll: it is the ideal
      one for that time; it is given up at the first poll at or after start + 15 * ack, and at
      most one datagram per stage, so at most four in all, is sent. */
  lemma {:induction false} BackoffRefinement(start: int, ack: AckTimeout, polls: seq<int>)
    requires |polls| > 0 && NonDecreasing(polls) && Prompt(start, ack, polls)
    ensures var (p, sends) := PollAll(PendingInit(start, ack), polls);
      var s := StageFrom(start, ack, 0, polls[|polls| - 1]);
      && p == (if s == 5 then None else Some(Ideal(start, ack, s)))
      && sends <= Min(s, 4)
      && (p == None <==> polls[|polls| - 1] >= start + 15 * ack)
    decreases |polls|
  {
    hide Poll, Ideal, Deadline;
    var n := |polls| - 1;
    var now := polls[n];
    EndStages(start, ack);
    StageFiveMeans(start, ack, 0, now);
    var init := polls[..n];
    if n == 0 {
      assert init == [];
      assert PollAll(PendingInit(start, ack), init) == (Some(PendingInit(start, ack)), 0);
      PollFollowsIdeal(start, ack, 0, now, false);
    } else {
      assert init[n - 1] == polls[n - 1] <= now;
      BackoffRefinement(start, ack, init);
      var s := StageFrom(start, ack, 0, polls[n - 1]);
      StageResumes(start, ack, 0, polls[n - 1], now);
      if s < 5 {
        StageAhead(start, ack, 0, polls[n - 1], polls[0]);
        PollFollowsIdeal(start, ack, s, now, false);
      }
    }
  }

  lemma {:induction false} StageFiveMeans(start: int, ack: AckTimeout, stage: nat, now: int)
    requires stage <= 4
    ensures StageFrom(start, ack, stage, now) == 5 <==> now >= Deadline(start, ack, 4)
    decreases 5 - stage
  {
    PowersBelow16(stage);
    PowersBelow16(4);
    if now >= Deadline(start, ack, stage) && stage < 4 {
      StageFiveMeans(start, ack, stage + 1, now);
    }
  }

  lemma {:induction false} StageResumes(start: int, ack: AckTimeout, stage: nat, earlier: int, now: int)
    requires stage <= 5 && earlier <= now
    ensures StageFrom(start, ack, StageFrom(start, ack, stage, earlier), now) == StageFrom(start, ack, stage, now)
    decreases 5 - stage
  {
    if stage < 5 && earlier >= Deadline(start, ack, stage) {
      StageResumes(start, ack, stage + 1, earlier, now);
    }
  }

  /** The deadline current at `now` is less than 2^31 ms away. */
  lemma {:induction false} StageAhead(start: int, ack: AckTimeout, stage: nat, now: int, first: int)
    requires stage <= 4 && first <= now && Deadline(start, ack, stage) - first < HALF32
    ensures var s := StageFrom(start, ack, stage, now); s < 5 ==> now < Deadline(start, ack, s) < now + HALF32
    decreases 5 - stage
  {
    if now >= Deadline(start, ack, stage) && stage < 4 {
      NextDeadline(start, ack, stage);
      StageAhead(start, ack, stage + 1, now, now);
    }
  }
}
