/** Retransmission over whole runs of the engine: every listed request's timer is where the ideal schedule of its exchange has
    it, it is given up exactly when that schedule ends, and no exchange sends more than four datagrams. */
module TimerRuns {
  import opened Common
  import opened Backoff
  import opened ObserveOrder
  import opened Engine
  import opened EngineInvariants
  import opened PollDeadlines

  // ----- A request's timer against the ideal schedule of its exchange

  /** The stage the ideal schedule reached at the last of these polls. */
  function StageAt(start: int, ack: AckTimeout, polls: seq<int>): (s: nat)
    ensures s <= 5
  {
    if polls == [] then 0 else StageFrom(start, ack, 0, polls[|polls| - 1])
  }

  /** The stage it reached at the last poll since the exchange was started. */
  function StageOf(r: Req): (s: nat)
    ensures s <= 5
  {
    StageAt(r.exchange.start, r.pending.ack, r.exchange.polls)
  }

  /** When the ideal schedule next acts. */
  function NextPoint(r: Req): int
  {
    Deadline(r.exchange.start, r.pending.ack, StageOf(r))
  }

  /** The 32-bit timer is the ideal one, for an exchange started and polled by `clock`. */
  ghost predicate OnSchedule(r: Req, clock: int)
  {
    && StageOf(r) <= 4 && r.pending == Ideal(r.exchange.start, r.pending.ack, StageOf(r))
    && NextPoint(r) < clock + HALF32
    && (forall t :: t in r.exchange.polls ==> t <= clock)
  }

  ghost predicate AllOnSchedule(reqs: seq<Req>, clock: int)
  {
    forall k :: 0 <= k < |reqs| ==> OnSchedule(reqs[k], clock)
  }

  /** A poll at `now` is not 2^31 ms late for any request it looks at. */
  ghost predicate InTime(reqs: seq<Req>, now: int)
  {
    forall k :: 0 <= k < |reqs| && !Settled(reqs[k]) ==> now < NextPoint(reqs[k]) + HALF32
  }

  // ----- How many datagrams an exchange has sent

  /** The datagrams sent for exchange `x` of request `rid`. */
  function SendsIn(sends: seq<Sent>, rid: nat, x: nat): nat
  {
    if sends == [] then 0
    else
      var last := sends[|sends| - 1];
      SendsIn(sends[..|sends| - 1], rid, x) + if last.rid == rid && last.exchange == x then 1 else 0
  }

  /** The retries used, the first transmission included. */
  function Used(p: Pending): int
  {
    if p.timeout == 0 then 0 else 4 - p.retries
  }

  /** Timeout and retries go together: unused, or doubled once per retry. */
  ghost predicate Shaped(p: Pending)
  {
    p.retries <= 3 && if p.timeout == 0 then p.retries == 3 else p.timeout == p.ack * Pow2(3 - p.retries)
  }

  /** The present exchange has sent no more than its timer used up, and no later one anything. */
  ghost predicate Frugal(r: Req, sends: seq<Sent>)
  {
    && Shaped(r.pending) && SendsIn(sends, r.rid, r.exchange.number) <= Used(r.pending)
    && forall x: nat :: x > r.exchange.number ==> SendsIn(sends, r.rid, x) == 0
  }

  ghost predicate AtMostFour(sends: seq<Sent>)
  {
    forall rid: nat, x: nat :: SendsIn(sends, rid, x) <= 4
  }

  ghost predicate SendsKnown(c: Client)
  {
    forall k :: 0 <= k < |c.sends| ==> c.sends[k].rid < c.allocs
  }

  ghost predicate SendInv(c: Client)
  {
    && (forall k :: 0 <= k < |c.reqs| ==> Frugal(c.reqs[k], c.sends))
    && AtMostFour(c.sends) && SendsKnown(c)
  }

  lemma {:induction false} NoSendsOf(sends: seq<Sent>, rid: nat, x: nat)
    requires forall k :: 0 <= k < |sends| ==> sends[k].rid != rid
    ensures SendsIn(sends, rid, x) == 0
  {
    if sends != [] { NoSendsOf(sends[..|sends| - 1], rid, x); }
  }

  // ----- Everything but polling: timers stay or are started anew

  /** The timer was started within the step at `now`. */
  predicate Started(r: Req, now: int)
  {
    && r.pending == PendingInit(r.exchange.start, r.pending.ack)
    && now <= r.exchange.start < now + HALF32 && r.exchange.polls == []
  }

  /** `r1` is `r` with the same timer, or with one started for a later exchange. */
  predicate Follows(r: Req, r1: Req, now: int)
  {
    && r1.rid == r.rid
    && ((r1.pending == r.pending && r1.exchange == r.exchange) ||
        (Started(r1, now) && r1.exchange.number > r.exchange.number))
  }

  ghost predicate Stems(r1: Req, c: Client, now: int)
  {
    || (r1.rid >= c.allocs && Started(r1, now))
    || exists j :: 0 <= j < |c.reqs| && Follows(c.reqs[j], r1, now)
  }

  /** Nothing was sent or polled between `c` and `c1`: each request listed is an old one or a new one. */
  ghost predicate Tended(c: Client, c1: Client, now: int)
  {
    && c1.sends == c.sends && c.allocs <= c1.allocs
    && forall k :: 0 <= k < |c1.reqs| ==> Stems(c1.reqs[k], c, now)
  }

  lemma TendedTransitive(a: Client, b: Client, c: Client, now: int)
    requires Tended(a, b, now) && Tended(b, c, now)
    ensures Tended(a, c, now)
  {
    forall k | 0 <= k < |c.reqs|
      ensures Stems(c.reqs[k], a, now)
    {
      var r := c.reqs[k];
      assert Stems(r, b, now);
      if !(r.rid >= b.allocs && Started(r, now)) {
        var j :| 0 <= j < |b.reqs| && Follows(b.reqs[j], r, now);
        assert Stems(b.reqs[j], a, now);
        if !(b.reqs[j].rid >= a.allocs && Started(b.reqs[j], now)) {
          var i :| 0 <= i < |a.reqs| && Follows(a.reqs[i], b.reqs[j], now);
          assert Follows(a.reqs[i], r, now);
        }
      }
    }
  }

  lemma WithReqTended(c: Client, i: nat, r: Req, now: int)
    requires i < |c.reqs| && Follows(c.reqs[i], r, now)
    ensures Tended(c, WithReq(c, i, r), now)
  {
    var c1 := WithReq(c, i, r);
    forall k | 0 <= k < |c1.reqs|
      ensures Stems(c1.reqs[k], c, now)
    {
      assert Follows(c.reqs[k], c1.reqs[k], now);
    }
  }

  lemma NextBlockFollows(r: Req, n: Next, now: int)
    ensures Follows(r, NextBlock(r, n, now), now)
  {
  }

  lemma InvokeTended(c: Client, i: nat, rsp: Rsp, user: User, now: int)
    requires i < |c.reqs|
    ensures Tended(c, Invoke(c, i, rsp, false, user, now).0, now)
  {
    InvokeKeeps(c, i, rsp, false, user, now);
    var c1 := Invoke(c, i, rsp, false, user, now).0;
    var next := user(c.calls, c.reqs[i].rid, rsp).next;
    if next.Some? { NextBlockFollows(c.reqs[i], next.value, now); }
    forall k | 0 <= k < |c1.reqs|
      ensures Stems(c1.reqs[k], c, now)
    {
      if k < |c.reqs| {
        assert k != i ==> c1.reqs[k] == WithReq(c, i, c1.reqs[i]).reqs[k];
        assert Follows(c.reqs[k], c1.reqs[k], now);
      } else {
        assert JustSubmitted(c1.reqs[k], now);
        var rid, d :| c1.reqs[k] == NewReq(rid, d, now);
      }
    }
  }

  lemma RemoveTended(c: Client, i: nat, now: int)
    requires i < |c.reqs|
    ensures Tended(c, Remove(c, i), now)
  {
    var c1 := Remove(c, i);
    forall k | 0 <= k < |c1.reqs|
      ensures Stems(c1.reqs[k], c, now)
    {
      assert Follows(c.reqs[if k < i then k else k + 1], c1.reqs[k], now);
    }
  }

  /** A callback and the exits after it. */
  lemma CallbackTended(c: Client, i: nat, rsp: Rsp, user: User, now: int)
    requires i < |c.reqs|
    ensures Tended(c, Finish(c, i, rsp, user, now), now)
    ensures Tended(c, Complete(c, i, rsp, user, now), now)
    ensures Tended(c, Continue(c, i, rsp, user, now), now)
  {
    hide Tended, Follows;
    InvokeKeeps(c, i, rsp, false, user, now);
    InvokeTended(c, i, rsp, user, now);
    var c1 := Invoke(c, i, rsp, false, user, now).0;
    RemoveTended(c1, i, now);
    SettledFollows(c1.reqs[i], now);
    WithReqTended(c1, i, c1.reqs[i].(isPending := false), now);
    TendedTransitive(c, c1, Remove(c1, i), now);
    TendedTransitive(c, c1, WithReq(c1, i, c1.reqs[i].(isPending := false)), now);
  }

  lemma SettledFollows(r: Req, now: int)
    ensures Follows(r, r.(isPending := false), now)
  {
  }

  lemma HandleReplyTended(c: Client, i: nat, rx: Packet, user: User, now: int)
    requires i < |c.reqs|
    ensures Tended(c, HandleReply(c, i, rx, user, now), now)
  {
    hide Tended, Stems, Finish, Complete, Continue;
    var r := c.reqs[i];
    if CodeToPosix(rx.code) != 0 {
      CallbackTended(c, i, ErrorRsp(CodeToPosix(rx.code)), user, now);
    } else if rx.block2.None? {
      CallbackTended(c, i, Rsp(rx.payload, 0, |rx.payload|, false, 0), user, now);
    } else {
      var option := rx.block2.value;
      match UpdateFromBlock(r.block, option, rx.size2)
      case None => CallbackTended(c, i, ErrorRsp(-EBADMSG), user, now);
      case Some(ctx) =>
        if ctx.current < r.block.current {
          WithReqTended(c, i, r.(block := ctx.(current := r.block.current)), now);
        } else {
          var (after, off) := NextOffset(ctx, option, |rx.payload|);
          var c1 := WithReq(c, i, r.(block := after));
          WithReqTended(c, i, r.(block := after), now);
          CallbackTended(c1, i, Rsp(rx.payload, ctx.current, after.total, off != 0,
                                    if off != 0 && r.observe then -EMSGSIZE else 0), user, now);
          TendedTransitive(c, c1, HandleReply(c, i, rx, user, now), now);
        }
    }
  }

  lemma ProcessRxTended(c: Client, rx: Packet, user: User, now: int)
    ensures Tended(c, ProcessRx(c, rx, user, now), now)
  {
    hide HandleReply, Stems, Tended;
    SameTended(c, now);
    var i := FindMatch(c.reqs, rx);
    if i < |c.reqs| {
      HandleReplyTended(c, i, rx, user, now);
      if rx.observe.Some? {
        var r := c.reqs[i].(reply := Reply(rx.observe.value, now));
        WithReqTended(c, i, r, now);
        HandleReplyTended(WithReq(c, i, r), i, rx, user, now);
        TendedTransitive(c, WithReq(c, i, r), HandleReply(WithReq(c, i, r), i, rx, user, now), now);
      }
    }
  }

  lemma SameTended(c: Client, now: int)
    ensures Tended(c, c, now) && forall connected :: Tended(c, c.(connected := connected), now)
  {
    assert forall k :: 0 <= k < |c.reqs| ==> Follows(c.reqs[k], c.reqs[k], now);
  }

  lemma SubmitTended(c: Client, d: Draft, now: int)
    ensures Tended(c, Submit(c, d, now), now)
  {
    assert forall k :: 0 <= k < |c.reqs| ==> Follows(c.reqs[k], c.reqs[k], now);
  }

  /** Every step but a poll. */
  lemma StepTended(c: Client, e: Event, user: User)
    requires !e.step.PollStep?
    ensures Tended(c, Apply(c, e, user), e.now)
  {
    hide Tended, ProcessRx, CancelAll, Submit, NextBlock;
    SameTended(c, e.now);
    match e.step
    case SubmitStep(d) => SubmitTended(c, d, e.now);
    case RxStep(rx) => ProcessRxTended(c, rx, user, e.now);
    case NextStep(rid, next) =>
      var i := IndexOf(c.reqs, rid);
      if i < |c.reqs| {
        NextBlockFollows(c.reqs[i], next, e.now);
        WithReqTended(c, i, NextBlock(c.reqs[i], next, e.now), e.now);
      }
    case ConnectStep =>
    case DisconnectStep =>
      var c1 := c.(connected := false);
      CancelAllTended(c1, -ESHUTDOWN, user, e.now);
      TendedTransitive(c, c1, Apply(c, e, user), e.now);
  }

  lemma {:induction false} CancelAllTended(c: Client, reason: int, user: User, now: int)
    requires !c.connected
    ensures Tended(c, CancelAll(c, reason, user, now), now)
    decreases |c.reqs|
  {
    hide Tended, Finish;
    if c.reqs == [] {
      SameTended(c, now);
    } else {
      var c1 := Finish(c, 0, ErrorRsp(reason), user, now);
      var _ := FinishFirst(c, reason, user, now);
      CallbackTended(c, 0, ErrorRsp(reason), user, now);
      CancelAllTended(c1, reason, user, now);
      TendedTransitive(c, c1, CancelAll(c1, reason, user, now), now);
    }
  }

  // ----- What a tended client keeps

  lemma TendedSends(c: Client, c1: Client, now: int)
    requires SendInv(c) && Tended(c, c1, now)
    ensures SendInv(c1)
  {
    forall k | 0 <= k < |c1.reqs|
      ensures Frugal(c1.reqs[k], c1.sends)
    {
      var r := c1.reqs[k];
      assert Stems(r, c, now);
      if r.rid >= c.allocs {
        forall x: nat
          ensures SendsIn(c.sends, r.rid, x) == 0
        {
          NoSendsOf(c.sends, r.rid, x);
        }
      }
      StemFrugal(c, r, now);
    }
  }

  lemma StemFrugal(c: Client, r: Req, now: int)
    requires SendInv(c) && Stems(r, c, now)
    requires r.rid >= c.allocs ==> forall x: nat :: SendsIn(c.sends, r.rid, x) == 0
    ensures Frugal(r, c.sends)
  {
    if !(r.rid >= c.allocs && Started(r, now)) {
      var j :| 0 <= j < |c.reqs| && Follows(c.reqs[j], r, now);
      assert Frugal(c.reqs[j], c.sends);
    }
  }

  lemma TendedOnSchedule(c: Client, c1: Client, clock: int, now: int)
    requires AllOnSchedule(c.reqs, clock) && clock <= now && Tended(c, c1, now)
    ensures AllOnSchedule(c1.reqs, now)
  {
    forall k | 0 <= k < |c1.reqs|
      ensures OnSchedule(c1.reqs[k], now)
    {
      var r := c1.reqs[k];
      assert Stems(r, c, now);
      EndStages(r.exchange.start, r.pending.ack);
      if !Started(r, now) {
        var j :| 0 <= j < |c.reqs| && Follows(c.reqs[j], r, now);
        assert OnSchedule(c.reqs[j], clock);
      }
    }
  }

  // ----- Polls

  lemma {:induction false} PollShaped(p: Pending, now: int, send: bool)
    requires Shaped(p)
    ensures match Poll(p, now, send)
      case GiveUp => true
      case Wait(q, sent, _) =>
        Shaped(q) && q.ack == p.ack && Used(p) <= Used(q) <= 4 && (sent && !send ==> Used(p) < Used(q))
    decreases p.retries, p.timeout == 0
  {
    if Remaining(p, now) <= 0 {
      CycleShaped(p);
      match Cycle(p)
      case None =>
      case Some(q) => PollShaped(q, now, true);
    }
  }

  lemma CycleShaped(p: Pending)
    requires Shaped(p)
    ensures match Cycle(p)
      case None => true
      case Some(q) => Shaped(q) && q.ack == p.ack && Used(q) == Used(p) + 1
  {
    assert Pow2(0) == 1 && Pow2(1) == 2 && Pow2(2) == 4 && Pow2(3) == 8;
  }

  lemma SendsAppend(sends: seq<Sent>, last: Sent, rid: nat, x: nat)
    ensures SendsIn(sends + [last], rid, x)
      == SendsIn(sends, rid, x) + if last.rid == rid && last.exchange == x then 1 else 0
  {
    assert (sends + [last])[..|sends|] == sends;
  }

  lemma PollOneSends(c: Client, i: nat, user: User, now: int)
    requires Inv(c) && SendInv(c) && i < |c.reqs|
    ensures SendInv(PollOne(c, i, user, now).0)
  {
    var r := c.reqs[i];
    match Poll(r.pending, now, false)
    case GiveUp =>
      CallbackTended(c, i, ErrorRsp(-ETIMEDOUT), user, now);
      TendedSends(c, PollOne(c, i, user, now).0, now);
    case Wait(p, send, _) =>
      PollShaped(r.pending, now, false);
      assert Frugal(r, c.sends);
      OwnedMeans(c);
      SentOnce(c, i, p, send, now, PollOne(c, i, user, now).0);
  }

  lemma SentOnce(c: Client, i: nat, p: Pending, send: bool, now: int, c1: Client)
    requires SendInv(c) && i < |c.reqs| && c.reqs[i].rid < c.allocs
    requires forall j, k :: 0 <= j < k < |c.reqs| ==> c.reqs[j].rid != c.reqs[k].rid
    requires Shaped(p) && Used(c.reqs[i].pending) <= Used(p) <= 4 && (send ==> Used(c.reqs[i].pending) < Used(p))
    requires var r := c.reqs[i];
      c1 == WithReq(c, i, Polled(r, p, now)).(
        sends := if send then c.sends + [Sent(r.rid, r.id, r.block2, r.exchange.number)] else c.sends)
    ensures SendInv(c1)
  {
    var r := c.reqs[i];
    if send {
      forall rid: nat, x: nat
        ensures SendsIn(c1.sends, rid, x)
          == SendsIn(c.sends, rid, x) + if r.rid == rid && r.exchange.number == x then 1 else 0
      {
        SendsAppend(c.sends, Sent(r.rid, r.id, r.block2, r.exchange.number), rid, x);
      }
    }
    assert Frugal(r, c.sends);
    forall k | 0 <= k < |c1.reqs|
      ensures Frugal(c1.reqs[k], c1.sends)
    {
      assert Frugal(c.reqs[k], c.sends);
    }
  }

  lemma {:induction false} PollPassSends(c: Client, i: nat, user: User, now: int)
    requires Inv(c) && SendInv(c) && i <= |c.reqs|
    ensures SendInv(PollPass(c, i, user, now).0)
    decreases GiveUps(c.reqs[i..], now), |c.reqs| - i
  {
    hide SendInv, Inv, PollOne;
    if i < |c.reqs| {
      if Settled(c.reqs[i]) {
        GiveUpsTail(c.reqs, i, now);
        PollPassSends(c, i + 1, user, now);
      } else {
        PollOneSends(c, i, user, now);
        PollOneInv(c, i, user, now);
        PollOneKeeps(c, i, user, now);
        if i + 1 < |c.reqs| {
          PollPassSends(PollOne(c, i, user, now).0, if GivesUp(c.reqs[i], now) then i else i + 1, user, now);
        }
      }
    }
  }

  /** One poll in time: the request is given up exactly past start + 15 * ack, and otherwise on schedule again, with a datagram
      exactly when the stage rises. */
  lemma PolledOnSchedule(r: Req, now: int)
    requires OnSchedule(r, now) && now < NextPoint(r) + HALF32
    ensures var s := StageFrom(r.exchange.start, r.pending.ack, 0, now);
      && (Poll(r.pending, now, false).GiveUp? <==> now >= r.exchange.start + 15 * r.pending.ack)
      && (!Poll(r.pending, now, false).GiveUp? ==>
            && s <= 4 && Poll(r.pending, now, false).pending == Ideal(r.exchange.start, r.pending.ack, s)
            && OnSchedule(Polled(r, Poll(r.pending, now, false).pending, now), now)
            && (Poll(r.pending, now, false).send <==> s > StageOf(r)))
  {
    hide Poll, Deadline, Ideal;
    var start, ack, s := r.exchange.start, r.pending.ack, StageOf(r);
    var polls := r.exchange.polls;
    if polls != [] {
      assert polls[|polls| - 1] in polls;
      StageResumes(start, ack, 0, polls[|polls| - 1], now);
    }
    PollFollowsIdeal(start, ack, s, now, false);
    StageAhead(start, ack, s, now, now);
    StageFiveMeans(start, ack, 0, now);
    EndStages(start, ack);
    if StageFrom(start, ack, s, now) < 5 {
      IdealAck(start, ack, StageFrom(start, ack, s, now));
    }
  }

  lemma IdealAck(start: int, ack: AckTimeout, stage: nat)
    requires stage <= 4
    ensures Ideal(start, ack, stage).ack == ack
  {
  }

  lemma {:induction false} PollPassOnSchedule(c: Client, i: nat, user: User, now: int)
    requires i <= |c.reqs| && AllOnSchedule(c.reqs, now) && InTime(c.reqs[i..], now)
    ensures AllOnSchedule(PollPass(c, i, user, now).0.reqs, now)
    decreases GiveUps(c.reqs[i..], now), |c.reqs| - i
  {
    hide AllOnSchedule, InTime, PollOne, OnSchedule;
    if i < |c.reqs| {
      InTimeTail(c.reqs, i, now);
      if Settled(c.reqs[i]) {
        GiveUpsTail(c.reqs, i, now);
        PollPassOnSchedule(c, i + 1, user, now);
      } else {
        PollOneOnSchedule(c, i, user, now);
        PollOneKeeps(c, i, user, now);
        if i + 1 < |c.reqs| {
          PollPassOnSchedule(PollOne(c, i, user, now).0, if GivesUp(c.reqs[i], now) then i else i + 1, user, now);
        }
      }
    }
  }

  lemma InTimeTail(reqs: seq<Req>, i: nat, now: int)
    requires i < |reqs| && InTime(reqs[i..], now)
    ensures InTime(reqs[i + 1..], now)
    ensures !Settled(reqs[i]) ==> now < NextPoint(reqs[i]) + HALF32
  {
    var rest := reqs[i + 1..];
    assert reqs[i..] == [reqs[i]] + rest;
    forall k | 0 <= k < |rest| && !Settled(rest[k])
      ensures now < NextPoint(rest[k]) + HALF32
    {
      assert reqs[i..][1 + k] == rest[k];
    }
    assert reqs[i..][0] == reqs[i];
  }

  lemma PollOneOnSchedule(c: Client, i: nat, user: User, now: int)
    requires i < |c.reqs| && !Settled(c.reqs[i]) && AllOnSchedule(c.reqs, now) && InTime(c.reqs[i..], now)
    ensures var c1 := PollOne(c, i, user, now).0;
      && AllOnSchedule(c1.reqs, now)
      && (if GivesUp(c.reqs[i], now) then i <= |c1.reqs| && InTime(c1.reqs[i..], now)
          else i + 1 <= |c1.reqs| && InTime(c1.reqs[i + 1..], now))
  {
    hide OnSchedule, Poll;
    var r := c.reqs[i];
    InTimeTail(c.reqs, i, now);
    assert OnSchedule(r, now);
    PolledOnSchedule(r, now);
    PollOneKeeps(c, i, user, now);
    match Poll(r.pending, now, false)
    case GiveUp =>
      CallbackTended(c, i, ErrorRsp(-ETIMEDOUT), user, now);
      TendedOnSchedule(c, PollOne(c, i, user, now).0, now, now);
      DroppedInTime(c, i, user, now);
    case Wait(p, _, _) =>
      assert PollOne(c, i, user, now).0.reqs == c.reqs[i := Polled(r, p, now)];
  }

  lemma DroppedInTime(c: Client, i: nat, user: User, now: int)
    requires i < |c.reqs| && GivesUp(c.reqs[i], now) && InTime(c.reqs[i + 1..], now)
    ensures var c1 := PollOne(c, i, user, now).0; i <= |c1.reqs| && InTime(c1.reqs[i..], now)
  {
    var added := DroppingOne(c, i, user, now);
    var c1 := PollOne(c, i, user, now).0;
    var rest := c.reqs[i + 1..];
    assert c1.reqs[i..] == rest + added;
    forall k | 0 <= k < |c1.reqs[i..]| && !Settled(c1.reqs[i..][k])
      ensures now < NextPoint(c1.reqs[i..][k]) + HALF32
    {
      if k < |rest| {
        assert c1.reqs[i..][k] == rest[k];
      } else {
        assert c1.reqs[i..][k] == added[k - |rest|];
        assert JustSubmitted(added[k - |rest|], now);
        var rid, d :| added[k - |rest|] == NewReq(rid, d, now);
        EndStages(now + d.delay, d.ack);
      }
    }
  }

  // ----- Runs

  ghost predicate Ordered(events: seq<Event>)
  {
    forall n :: 0 < n < |events| ==> events[n - 1].now <= events[n].now
  }

  function Clock(events: seq<Event>): int
  {
    if events == [] then 0 else events[|events| - 1].now
  }

  /** No poll of the run is 2^31 ms late. */
  ghost predicate PollsInTime(events: seq<Event>, user: User)
  {
    forall n :: 0 <= n < |events| && events[n].step.PollStep? ==> InTime(Run(events[..n], user).reqs, events[n].now)
  }

  lemma InitInTime(events: seq<Event>, user: User)
    requires events != [] && Ordered(events) && PollsInTime(events, user)
    ensures Ordered(events[..|events| - 1]) && PollsInTime(events[..|events| - 1], user)
    ensures var c := Run(events[..|events| - 1], user);
      && (events[|events| - 1].step.PollStep? ==> InTime(c.reqs[0..], events[|events| - 1].now))
      && (c.reqs != [] ==> Clock(events[..|events| - 1]) <= events[|events| - 1].now)
  {
    hide InTime, Apply;
    var init := events[..|events| - 1];
    assert forall n :: 0 <= n < |init| ==> init[..n] == events[..n] && init[n] == events[n];
    var c := Run(init, user);
    assert c.reqs[0..] == c.reqs;
  }

  lemma ScheduledLater(reqs: seq<Req>, clock: int, now: int)
    requires AllOnSchedule(reqs, clock) && (reqs == [] || clock <= now)
    ensures AllOnSchedule(reqs, now)
  {
    hide StageOf, NextPoint;
  }

  /** In every run whose events are in order and whose polls are in time, the 32-bit timer of every listed request is the ideal
      one of its exchange, counted from the clock at which the request was submitted or its last block asked for. */
  lemma {:induction false} RunScheduled(events: seq<Event>, user: User)
    requires Ordered(events) && PollsInTime(events, user)
    ensures AllOnSchedule(Run(events, user).reqs, Clock(events))
  {
    hide PollPass, ProcessRx, CancelAll, Submit, Ordered, PollsInTime, OnSchedule, InTime, Tended;
    if events != [] {
      var n := |events| - 1;
      var init, e := events[..n], events[n];
      var c := Run(init, user);
      InitInTime(events, user);
      RunScheduled(init, user);
      ScheduledLater(c.reqs, Clock(init), e.now);
      if e.step.PollStep? {
        PollPassOnSchedule(c, 0, user, e.now);
      } else {
        StepTended(c, e, user);
        TendedOnSchedule(c, Apply(c, e, user), e.now, e.now);
      }
    }
  }

  /** In every run, however it is polled, no exchange of any request sends more than four datagrams. */
  lemma {:induction false} FourSendsPerExchange(events: seq<Event>, user: User)
    ensures AtMostFour(Run(events, user).sends) && SendInv(Run(events, user))
  {
    hide PollPass, ProcessRx, CancelAll, Submit, Inv, Tended;
    if events != [] {
      hide SendInv;
      var init, e := events[..|events| - 1], events[|events| - 1];
      var c := Run(init, user);
      FourSendsPerExchange(init, user);
      RunInv(init, user);
      if e.step.PollStep? {
        PollPassSends(c, 0, user, e.now);
      } else {
        StepTended(c, e, user);
        TendedSends(c, Apply(c, e, user), e.now);
      }
      SendInvMeans(Run(events, user));
    }
  }

  lemma SendInvMeans(c: Client)
    requires SendInv(c)
    ensures AtMostFour(c.sends)
  {
  }

  /** In every run in order and in time, a poll that is in time too gives up an unanswered request if and only if it comes 15 * ack
      or more after the request was submitted or its last block asked for; otherwise the request stays, on its schedule. */
  lemma PolledPastDeadline(events: seq<Event>, user: User, i: nat, now: int)
    requires Ordered(events) && PollsInTime(events, user) && Clock(events) <= now
    requires i < |Run(events, user).reqs| && !Settled(Run(events, user).reqs[i])
    requires now < NextPoint(Run(events, user).reqs[i]) + HALF32
    ensures var c := Run(events, user);
      var r := c.reqs[i];
      var c1 := Apply(c, Event(now, PollStep), user);
      var (start, ack) := (r.exchange.start, r.pending.ack);
      if now >= start + 15 * ack then TimedOutIn(r, c, c1)
      else
        var s := StageFrom(start, ack, 0, now);
        s <= 4 && Polled(r, Ideal(start, ack, s), now) in c1.reqs
  {
    hide PollPass, Ideal, StageFrom;
    var c := Run(events, user);
    var r := c.reqs[i];
    RunScheduled(events, user);
    ScheduledLater(c.reqs, Clock(events), now);
    assert OnSchedule(r, now);
    PolledOnSchedule(r, now);
    if now >= r.exchange.start + 15 * r.pending.ack {
      PolledOut(events, user, now, i);
    } else {
      SurvivorIn(c.reqs, i, now);
      NoMissedDeadline(c, user, now);
      var kept, c1 := Survivors(c.reqs, now), PollPass(c, 0, user, now).0;
      var m :| 0 <= m < |kept| && kept[m] == AfterPoll(r, now);
      assert c1.reqs[m] == c1.reqs[..|kept|][m];
    }
  }

  lemma {:induction false} SurvivorIn(reqs: seq<Req>, i: nat, now: int)
    requires i < |reqs| && !GivesUp(reqs[i], now)
    ensures AfterPoll(reqs[i], now) in Survivors(reqs, now)
  {
    if i > 0 { SurvivorIn(reqs[1..], i - 1, now); }
  }
}
