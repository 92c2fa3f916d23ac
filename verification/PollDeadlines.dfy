/** What a poll pass of the engine does to the list, and that it misses no deadline. */
module PollDeadlines {
  import opened Common
  import opened Backoff
  import opened ObserveOrder
  import opened Engine
  import opened EngineInvariants

  // ----- Poll passes

  function AfterPoll(r: Req, now: int): Req
  {
    if Settled(r) then r
    else match Poll(r.pending, now, false)
      case GiveUp => r
      case Wait(p, _, _) => Polled(r, p, now)
  }

  /** The requests a poll pass leaves listed, with their timers advanced. */
  function Survivors(reqs: seq<Req>, now: int): seq<Req>
  {
    if reqs == [] then []
    else (if GivesUp(reqs[0], now) then [] else [AfterPoll(reqs[0], now)]) + Survivors(reqs[1..], now)
  }

  lemma {:induction false} SurvivorsConcat(a: seq<Req>, b: seq<Req>, now: int)
    ensures Survivors(a + b, now) == Survivors(a, now) + Survivors(b, now)
  {
    if a == [] {
      assert a + b == b;
    } else {
      assert (a + b)[1..] == a[1..] + b;
      SurvivorsConcat(a[1..], b, now);
    }
  }

  lemma {:induction false} NewSurvive(reqs: seq<Req>, now: int)
    requires forall k :: 0 <= k < |reqs| ==> JustSubmitted(reqs[k], now)
    ensures |Survivors(reqs, now)| == |reqs|
  {
    if reqs != [] {
      JustSubmittedStays(reqs[0], now);
      NewSurvive(reqs[1..], now);
    }
  }

  lemma {:induction false} PollRemaining(p: Pending, now: int, send: bool)
    ensures match Poll(p, now, send)
      case GiveUp => true
      case Wait(q, _, remaining) => remaining == Remaining(q, now) > 0
    decreases p.retries, p.timeout == 0
  {
    if Remaining(p, now) <= 0 && Cycle(p).Some? { PollRemaining(Cycle(p).value, now, true); }
  }

  ghost predicate TimedOut(r: Req, calls: seq<Call>)
  {
    exists k :: 0 <= k < |calls| && calls[k].rid == r.rid && !calls[k].nested && calls[k].rsp == ErrorRsp(-110)
  }

  /** The exact effect of a poll pass from position `i` on the list: everything before `i` is untouched, everything
      from `i` on that ran out of retries is dropped, the rest stays in order with advanced timers, and
      whatever is listed after that was submitted during the pass and raised its own wakeup. */
  ghost predicate ListEffect(c: Client, i: nat, c1: Client, now: int)
    requires i <= |c.reqs|
  {
    var kept := Survivors(c.reqs[i..], now);
    && i + |kept| <= |c1.reqs|
    && c1.reqs[..i + |kept|] == c.reqs[..i] + kept
    && |c1.reqs| - (i + |kept|) == c1.wakeups - c.wakeups
    && c.calls <= c1.calls
  }

  /** Every request dropped was reported. */
  ghost predicate ReportEffect(c: Client, i: nat, c1: Client, now: int)
  {
    && c.calls <= c1.calls
    && forall k :: i <= k < |c.reqs| && GivesUp(c.reqs[k], now) ==> TimedOut(c.reqs[k], c1.calls[|c.calls|..])
  }

  ghost predicate WaitsFor(r: Req, t: int, now: int)
  {
    !Settled(r) && Remaining(r.pending, now) == t
  }

  /** The timeout returned is a lower bound for the unsettled requests kept, positive, and met by a listed one. */
  ghost predicate TimeoutEffect(kept: seq<Req>, i: nat, c1: Client, t: Option<int>, now: int)
  {
    && (forall k :: 0 <= k < |kept| && !Settled(kept[k]) ==> t.Some? && t.value <= Remaining(kept[k].pending, now))
    && (t.Some? ==> t.value > 0)
    && (t.Some? ==> exists k :: i <= k < |c1.reqs| && WaitsFor(c1.reqs[k], t.value, now))
  }

  ghost predicate PassEffect(c: Client, i: nat, c1: Client, t: Option<int>, now: int)
    requires i <= |c.reqs|
  {
    && ListEffect(c, i, c1, now)
    && ReportEffect(c, i, c1, now)
    && TimeoutEffect(Survivors(c.reqs[i..], now), i, c1, t, now)
  }

  lemma {:induction false} PollPassEffect(c: Client, i: nat, user: User, now: int)
    requires i <= |c.reqs|
    ensures var (c1, t) := PollPass(c, i, user, now); PassEffect(c, i, c1, t, now)
    decreases GiveUps(c.reqs[i..], now), |c.reqs| - i
  {
    if i < |c.reqs| {
      assert c.reqs[i..][1..] == c.reqs[i + 1..];
      if Settled(c.reqs[i]) {
        GiveUpsTail(c.reqs, i, now);
        PollPassEffect(c, i + 1, user, now);
        var (c1, t) := PollPass(c, i + 1, user, now);
        KeepOne(c, i, c, c1, c.reqs[i], None, t, now);
      } else if GivesUp(c.reqs[i], now) {
        PassDropping(c, i, user, now);
      } else {
        PassWaiting(c, i, user, now);
      }
    }
  }

  /** One request kept, then the rest of the pass. */
  lemma KeepOne(c: Client, i: nat, c0: Client, c1: Client, r: Req, t0: Option<int>, t1: Option<int>, now: int)
    requires i < |c.reqs| && !GivesUp(c.reqs[i], now) && r == AfterPoll(c.reqs[i], now)
    requires c0.reqs == c.reqs[i := r] && c0.wakeups == c.wakeups && c0.calls == c.calls
    requires t0 == if Settled(r) then None else Some(Remaining(r.pending, now))
    requires t0.Some? ==> t0.value > 0
    requires PassEffect(c0, i + 1, c1, t1, now)
    ensures PassEffect(c, i, c1, MinTimeout(t0, t1), now)
  {
    var rest := Survivors(c.reqs[i + 1..], now);
    var kept := [r] + rest;
    assert c.reqs[i..][1..] == c.reqs[i + 1..] == c0.reqs[i + 1..];
    assert Survivors(c.reqs[i..], now) == kept;
    assert c0.reqs[..i + 1] + rest == c.reqs[..i] + kept;
    assert c1.reqs[i] == c1.reqs[..i + 1 + |rest|][i] == r;
    assert TimeoutEffect(kept, i, c1, MinTimeout(t0, t1), now) by {
      TimeoutJoins(r, rest, i, c1, t0, t1, now);
    }
  }

  lemma TimeoutJoins(r: Req, rest: seq<Req>, i: nat, c1: Client, t0: Option<int>, t1: Option<int>, now: int)
    requires i < |c1.reqs| && c1.reqs[i] == r
    requires t0 == if Settled(r) then None else Some(Remaining(r.pending, now))
    requires t0.Some? ==> t0.value > 0
    requires TimeoutEffect(rest, i + 1, c1, t1, now)
    ensures TimeoutEffect([r] + rest, i, c1, MinTimeout(t0, t1), now)
  {
    var kept := [r] + rest;
    var t := MinTimeout(t0, t1);
    forall k | 0 <= k < |kept| && !Settled(kept[k])
      ensures t.Some? && t.value <= Remaining(kept[k].pending, now)
    {
      if k > 0 { assert kept[k] == rest[k - 1]; }
    }
    if t.Some? {
      if t == t0 {
        assert WaitsFor(c1.reqs[i], t.value, now);
      } else {
        var k :| i + 1 <= k < |c1.reqs| && WaitsFor(c1.reqs[k], t1.value, now);
        assert WaitsFor(c1.reqs[k], t.value, now);
      }
    }
  }

  lemma PassWaiting(c: Client, i: nat, user: User, now: int)
    requires i < |c.reqs| && !Settled(c.reqs[i]) && !GivesUp(c.reqs[i], now)
    ensures var (c1, t) := PollPass(c, i, user, now); PassEffect(c, i, c1, t, now)
    decreases GiveUps(c.reqs[i..], now), |c.reqs| - i, 0
  {
    var r := AfterPoll(c.reqs[i], now);
    PollRemaining(c.reqs[i].pending, now, false);
    PollOneKeeps(c, i, user, now);
    var (c0, t0) := PollOne(c, i, user, now);
    if i + 1 == |c.reqs| {
      assert PassEffect(c0, i + 1, c0, None, now);
      KeepOne(c, i, c0, c0, r, t0, None, now);
    } else {
      PollPassEffect(c0, i + 1, user, now);
      var (c1, t1) := PollPass(c0, i + 1, user, now);
      KeepOne(c, i, c0, c1, r, t0, t1, now);
    }
  }

  lemma PassDropping(c: Client, i: nat, user: User, now: int)
    requires i < |c.reqs| && GivesUp(c.reqs[i], now)
    ensures var (c1, t) := PollPass(c, i, user, now); PassEffect(c, i, c1, t, now)
    decreases GiveUps(c.reqs[i..], now), |c.reqs| - i, 0
  {
    PollOneKeeps(c, i, user, now);
    var c0 := PollOne(c, i, user, now).0;
    var added := DroppingOne(c, i, user, now);
    if i + 1 == |c.reqs| {
      DropLast(c, i, c0, added, now);
    } else {
      PollPassEffect(c0, i, user, now);
      var (c1, t) := PollPass(c0, i, user, now);
      DropOne(c, i, c0, c1, added, t, now);
    }
  }

  /** `c0` is `c` with request `i` reported and dropped and `added` submitted meanwhile. */
  ghost predicate Dropped(c: Client, i: nat, c0: Client, added: seq<Req>, now: int)
    requires i < |c.reqs|
  {
    && c0.reqs == c.reqs[..i] + c.reqs[i + 1..] + added
    && (forall k :: 0 <= k < |added| ==> JustSubmitted(added[k], now))
    && c0.wakeups == c.wakeups + |added|
    && c.calls < c0.calls
    && TimedOut(c.reqs[i], c0.calls[|c.calls|..])
  }

  lemma DroppingOne(c: Client, i: nat, user: User, now: int) returns (added: seq<Req>)
    requires i < |c.reqs| && GivesUp(c.reqs[i], now)
    ensures Dropped(c, i, PollOne(c, i, user, now).0, added, now)
  {
    var rsp := ErrorRsp(-ETIMEDOUT);
    InvokeKeeps(c, i, rsp, false, user, now);
    InvokeCalls(c, i, rsp, user, now);
    var c1 := Invoke(c, i, rsp, false, user, now).0;
    var c0 := PollOne(c, i, user, now).0;
    added := c1.reqs[|c.reqs|..];
    assert c1.reqs == c.reqs + added;
    assert c0.reqs == c.reqs[..i] + c.reqs[i + 1..] + added;
    assert c0.calls[|c.calls|..][0] == c0.calls[|c.calls|];
  }

  lemma DropLast(c: Client, i: nat, c0: Client, added: seq<Req>, now: int)
    requires i + 1 == |c.reqs| && GivesUp(c.reqs[i], now) && Dropped(c, i, c0, added, now)
    ensures PassEffect(c, i, c0, None, now)
  {
    assert c.reqs[i..][1..] == [];
    assert Survivors(c.reqs[i..], now) == [];
    assert c0.reqs[..i] == c.reqs[..i];
  }

  lemma DropOne(c: Client, i: nat, c0: Client, c1: Client, added: seq<Req>, t: Option<int>, now: int)
    requires i + 1 < |c.reqs| && GivesUp(c.reqs[i], now) && Dropped(c, i, c0, added, now)
    requires i <= |c0.reqs| && PassEffect(c0, i, c1, t, now)
    ensures PassEffect(c, i, c1, t, now)
  {
    DropOneList(c, i, c0, c1, added, now);
    DropOneKept(c, i, c0, added, now);
    var kept := Survivors(c.reqs[i..], now);
    var all := Survivors(c0.reqs[i..], now);
    forall k | 0 <= k < |kept| && !Settled(kept[k])
      ensures t.Some? && t.value <= Remaining(kept[k].pending, now)
    {
      assert all[k] == kept[k];
    }
    assert TimeoutEffect(kept, i, c1, t, now);
    assert forall k :: i < k < |c.reqs| ==> c0.reqs[k - 1] == c.reqs[k];
    DroppedAreReported(c, i, c0, c1, now);
  }

  lemma DropOneKept(c: Client, i: nat, c0: Client, added: seq<Req>, now: int)
    requires i < |c.reqs| && GivesUp(c.reqs[i], now) && Dropped(c, i, c0, added, now) && i <= |c0.reqs|
    ensures Survivors(c0.reqs[i..], now) == Survivors(c.reqs[i..], now) + Survivors(added, now)
    ensures |Survivors(added, now)| == |added|
  {
    assert c.reqs[i..][1..] == c.reqs[i + 1..];
    assert c0.reqs[i..] == c.reqs[i + 1..] + added;
    SurvivorsConcat(c.reqs[i + 1..], added, now);
    NewSurvive(added, now);
  }

  lemma DropOneList(c: Client, i: nat, c0: Client, c1: Client, added: seq<Req>, now: int)
    requires i + 1 < |c.reqs| && GivesUp(c.reqs[i], now) && Dropped(c, i, c0, added, now)
    requires i <= |c0.reqs| && ListEffect(c0, i, c1, now)
    ensures ListEffect(c, i, c1, now)
  {
    DropOneKept(c, i, c0, added, now);
    var kept := Survivors(c.reqs[i..], now);
    var all := Survivors(c0.reqs[i..], now);
    assert c0.reqs[..i] == c.reqs[..i];
    assert c1.reqs[..i + |kept|] == c1.reqs[..i + |all|][..i + |kept|] == c.reqs[..i] + kept;
  }

  lemma TimedOutLater(r: Req, calls: seq<Call>, prefix: nat, suffix: nat, upto: nat)
    requires prefix <= suffix <= upto <= |calls| && TimedOut(r, calls[suffix..upto])
    ensures TimedOut(r, calls[prefix..])
  {
    var part := calls[suffix..upto];
    var m :| 0 <= m < |part| && part[m].rid == r.rid && !part[m].nested && part[m].rsp == ErrorRsp(-ETIMEDOUT);
    assert calls[prefix..][suffix - prefix + m] == part[m];
  }

  lemma DroppedAreReported(c: Client, i: nat, c0: Client, c1: Client, now: int)
    requires i < |c.reqs| && |c.reqs| - 1 <= |c0.reqs|
    requires forall k :: i < k < |c.reqs| ==> c0.reqs[k - 1] == c.reqs[k]
    requires c.calls < c0.calls && TimedOut(c.reqs[i], c0.calls[|c.calls|..])
    requires ReportEffect(c0, i, c1, now)
    ensures ReportEffect(c, i, c1, now)
  {
    var n := |c1.calls|;
    forall k | i <= k < |c.reqs| && GivesUp(c.reqs[k], now)
      ensures TimedOut(c.reqs[k], c1.calls[|c.calls|..])
    {
      if k > i {
        assert TimedOut(c0.reqs[k - 1], c1.calls[|c0.calls|..]);
        assert c1.calls[|c0.calls|..] == c1.calls[|c0.calls|..n];
        TimedOutLater(c.reqs[k], c1.calls, |c.calls|, |c0.calls|, n);
      } else {
        assert c0.calls[|c.calls|..] == c1.calls[|c.calls|..|c0.calls|];
        TimedOutLater(c.reqs[i], c1.calls, |c.calls|, |c.calls|, |c0.calls|);
      }
    }
  }

  lemma InvokeCalls(c: Client, i: nat, rsp: Rsp, user: User, now: int)
    requires i < |c.reqs| && !rsp.more
    ensures var r := c.reqs[i];
      var (c1, ret) := Invoke(c, i, rsp, false, user, now);
      c1.calls == c.calls + [Call(r.rid, r.observe, false, rsp, ret)]
  {
    var reaction := user(c.calls, c.reqs[i].rid, rsp);
    SubmitAllKeeps(c.(calls := c.calls + [Call(c.reqs[i].rid, c.reqs[i].observe, false, rsp, reaction.ret)]),
                   reaction.submits, now);
  }

  /** A poll pass returns the time to the earliest deadline left: at most that of every unsettled request that was
      listed and stays, always positive, and INT64_MAX only if no such request is left. Requests listed
      beyond those were submitted during the pass, each with a wakeup. */
  lemma NoMissedDeadline(c: Client, user: User, now: int)
    ensures var (c1, t) := PollPass(c, 0, user, now);
      var kept := Survivors(c.reqs, now);
      && |kept| <= |c1.reqs| && c1.reqs[..|kept|] == kept
      && |c1.reqs| - |kept| == c1.wakeups - c.wakeups
      && (forall r :: r in kept && !Settled(r) ==> t.Some? && t.value <= Remaining(r.pending, now))
      && (t.Some? ==> t.value > 0)
      && (t.Some? ==> exists k :: 0 <= k < |c1.reqs| && WaitsFor(c1.reqs[k], t.value, now))
  {
    PollPassEffect(c, 0, user, now);
    assert c.reqs[0..] == c.reqs;
    assert c.reqs[..0] == [];
  }

  // ----- A request that runs out of retries

  /** `r` was freed by the step from `c` to `c1`, with a timeout reported. */
  ghost predicate TimedOutIn(r: Req, c: Client, c1: Client)
  {
    r.rid in c1.freed && c.calls <= c1.calls && TimedOut(r, c1.calls[|c.calls|..])
  }

  lemma PolledOut(events: seq<Event>, user: User, now: int, i: nat)
    requires i < |Run(events, user).reqs| && GivesUp(Run(events, user).reqs[i], now)
    ensures var c := Run(events, user); TimedOutIn(c.reqs[i], c, Apply(c, Event(now, PollStep), user))
  {
    var c := Run(events, user);
    var e := Event(now, PollStep);
    PollPassEffect(c, 0, user, now);
    var longer := events + [e];
    assert longer[..|longer| - 1] == events;
    var c1 := Apply(c, e, user);
    var later := c1.calls[|c.calls|..];
    var m :| 0 <= m < |later| && later[m].rid == c.reqs[i].rid && !later[m].nested && later[m].rsp == ErrorRsp(-ETIMEDOUT);
    assert c1.calls[|c.calls| + m] == later[m];
    RunInv(longer, user);
    ExactlyOnceCompletion(longer, user, c.reqs[i].rid);
  }
}
