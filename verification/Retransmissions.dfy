/** What is sent, against the ideal schedule: a poll pass sends exactly one datagram for each request whose schedule has moved on
    since it was last polled, and in every run each exchange has sent as many as its polls saw the schedule move on. */
module Retransmissions {
  import opened Common
  import opened Backoff
  import opened ObserveOrder
  import opened Engine
  import opened EngineInvariants
  import opened PollDeadlines
  import opened TimerRuns

  // ----- One pass

  /** The request waits for an answer, and its schedule has moved on since the last poll and is not over. */
  predicate Due(r: Req, now: int)
  {
    (r.observe ==> r.isPending) && StageOf(r) < StageFrom(r.exchange.start, r.pending.ack, 0, now) <= 4
  }

  /** The present packet of each request that is due, in list order. */
  function DueSends(reqs: seq<Req>, now: int): seq<Sent>
  {
    if reqs == [] then []
    else
      var r := reqs[0];
      (if Due(r, now) then [Sent(r.rid, r.id, r.block2, r.exchange.number)] else []) + DueSends(reqs[1..], now)
  }

  /** What is due from position `i` on was sent, in order, and after it only datagrams of requests submitted since. */
  ghost predicate SendEffect(c: Client, i: nat, c1: Client, now: int)
    requires i <= |c.reqs|
  {
    var due := DueSends(c.reqs[i..], now);
    && c.sends + due <= c1.sends
    && forall k :: |c.sends| + |due| <= k < |c1.sends| ==> c1.sends[k].rid >= c.allocs
  }

  lemma DueFirst(reqs: seq<Req>, i: nat, now: int)
    requires i < |reqs|
    ensures var r := reqs[i];
      DueSends(reqs[i..], now)
      == (if Due(r, now) then [Sent(r.rid, r.id, r.block2, r.exchange.number)] else []) + DueSends(reqs[i + 1..], now)
  {
    hide Due;
    assert reqs[i..][1..] == reqs[i + 1..];
  }

  lemma DueCons(r: Req, more: seq<Req>, now: int)
    ensures DueSends([r] + more, now)
      == (if Due(r, now) then [Sent(r.rid, r.id, r.block2, r.exchange.number)] else []) + DueSends(more, now)
  {
    hide Due;
    assert ([r] + more)[1..] == more;
  }

  lemma {:induction false} DueConcat(a: seq<Req>, b: seq<Req>, now: int)
    ensures DueSends(a + b, now) == DueSends(a, now) + DueSends(b, now)
  {
    hide Due;
    if a == [] {
      assert a + b == b;
    } else {
      hide DueSends;
      var r, more := a[0], a[1..];
      assert a == [r] + more && a + b == [r] + (more + b);
      DueConcat(more, b, now);
      DueCons(r, more, now);
      DueCons(r, more + b, now);
    }
  }

  lemma {:induction false} DueOf(reqs: seq<Req>, now: int, n: nat)
    requires forall k :: 0 <= k < |reqs| ==> reqs[k].rid >= n
    ensures forall k :: 0 <= k < |DueSends(reqs, now)| ==> DueSends(reqs, now)[k].rid >= n
  {
    hide Due;
    if reqs != [] { DueOf(reqs[1..], now, n); }
  }

  lemma {:induction false} PassSends(c: Client, i: nat, user: User, now: int)
    requires i <= |c.reqs| && AllOnSchedule(c.reqs, now) && InTime(c.reqs[i..], now)
    ensures SendEffect(c, i, PollPass(c, i, user, now).0, now)
    decreases GiveUps(c.reqs[i..], now), |c.reqs| - i
  {
    hide AllOnSchedule, InTime, PollOne, OnSchedule, SendEffect, Due, DueSends;
    if i == |c.reqs| {
      NothingDue(c, now);
    } else {
      InTimeTail(c.reqs, i, now);
      if Settled(c.reqs[i]) {
        GiveUpsTail(c.reqs, i, now);
        PassSends(c, i + 1, user, now);
        SettledSends(c, i, PollPass(c, i + 1, user, now).0, now);
      } else {
        PollOneOnSchedule(c, i, user, now);
        PollOneKeeps(c, i, user, now);
        var c0 := PollOne(c, i, user, now).0;
        if GivesUp(c.reqs[i], now) {
          DroppedSends(c, i, user, now);
          if i + 1 < |c.reqs| { PassSends(c0, i, user, now); }
          AfterDrop(c, i, c0, PollPass(c, i, user, now).0, now);
        } else {
          if i + 1 < |c.reqs| { PassSends(c0, i + 1, user, now); } else { NothingDue(c0, now); }
          WaitingSends(c, i, user, now, PollPass(c, i, user, now).0);
        }
      }
    }
  }

  lemma NothingDue(c: Client, now: int)
    ensures SendEffect(c, |c.reqs|, c, now)
  {
    assert c.sends + [] == c.sends;
  }

  lemma NoneDue(now: int)
    ensures DueSends([], now) == []
  {
  }

  lemma SettledSends(c: Client, i: nat, c1: Client, now: int)
    requires i < |c.reqs| && Settled(c.reqs[i]) && SendEffect(c, i + 1, c1, now)
    ensures SendEffect(c, i, c1, now)
  {
    DueFirst(c.reqs, i, now);
  }

  /** A request kept: one datagram if it is due, none if not. */
  lemma WaitingSends(c: Client, i: nat, user: User, now: int, c1: Client)
    requires i < |c.reqs| && AllOnSchedule(c.reqs, now) && InTime(c.reqs[i..], now)
    requires !Settled(c.reqs[i]) && !GivesUp(c.reqs[i], now)
    requires var c0 := PollOne(c, i, user, now).0; i + 1 <= |c0.reqs| && SendEffect(c0, i + 1, c1, now)
    ensures SendEffect(c, i, c1, now)
  {
    hide Poll, StageFrom, OnSchedule, DueSends;
    var r := c.reqs[i];
    var c0 := PollOne(c, i, user, now).0;
    assert OnSchedule(r, now);
    InTimeTail(c.reqs, i, now);
    PolledOnSchedule(r, now);
    DueFirst(c.reqs, i, now);
    assert c0.reqs[i + 1..] == c.reqs[i + 1..];
    var first := if Due(r, now) then [Sent(r.rid, r.id, r.block2, r.exchange.number)] else [];
    assert c0.sends == c.sends + first;
    assert c.sends + (first + DueSends(c.reqs[i + 1..], now)) == c0.sends + DueSends(c.reqs[i + 1..], now);
  }

  /** A request given up is not due, sends nothing, and what its callback submits is new. */
  lemma DroppedSends(c: Client, i: nat, user: User, now: int)
    requires i < |c.reqs| && AllOnSchedule(c.reqs, now) && InTime(c.reqs[i..], now) && GivesUp(c.reqs[i], now)
    ensures !Due(c.reqs[i], now)
    ensures var c0 := PollOne(c, i, user, now).0;
      && c0.sends == c.sends && c.allocs <= c0.allocs && |c.reqs| - 1 <= |c0.reqs|
      && c0.reqs[i..|c.reqs| - 1] == c.reqs[i + 1..]
      && forall k :: |c.reqs| - 1 <= k < |c0.reqs| ==> c0.reqs[k].rid >= c.allocs
  {
    hide Poll, OnSchedule;
    var r := c.reqs[i];
    assert OnSchedule(r, now);
    InTimeTail(c.reqs, i, now);
    PolledOnSchedule(r, now);
    StageFiveMeans(r.exchange.start, r.pending.ack, 0, now);
    InvokeKeeps(c, i, ErrorRsp(-ETIMEDOUT), false, user, now);
    var c0 := PollOne(c, i, user, now).0;
    assert forall k :: i <= k < |c.reqs| - 1 ==> c0.reqs[k] == c.reqs[k + 1];
  }

  lemma AfterDrop(c: Client, i: nat, c0: Client, c1: Client, now: int)
    requires i < |c.reqs| && !Due(c.reqs[i], now)
    requires c0.sends == c.sends && c.allocs <= c0.allocs && |c.reqs| - 1 <= |c0.reqs|
    requires c0.reqs[i..|c.reqs| - 1] == c.reqs[i + 1..]
    requires forall k :: |c.reqs| - 1 <= k < |c0.reqs| ==> c0.reqs[k].rid >= c.allocs
    requires if i + 1 < |c.reqs| then SendEffect(c0, i, c1, now) else c1 == c0
    ensures SendEffect(c, i, c1, now)
  {
    hide Due, DueSends;
    DueFirst(c.reqs, i, now);
    var rest, added := c.reqs[i + 1..], c0.reqs[|c.reqs| - 1..];
    var due := DueSends(rest, now);
    if i + 1 < |c.reqs| {
      assert c0.reqs[i..] == rest + added;
      DueConcat(rest, added, now);
      DueOf(added, now, c.allocs);
      var more := DueSends(added, now);
      assert c.sends + due + more == c.sends + (due + more);
    } else {
      NoneDue(now);
      assert c.sends + [] == c.sends;
    }
  }

  // ----- Runs

  /** In every run in order and in time: a poll that is in time too sends, first and in list order, exactly one datagram for each
      request that is due, its present packet; anything more is for requests submitted during the poll. */
  lemma PollSendsWhatIsDue(events: seq<Event>, user: User, now: int)
    requires Ordered(events) && PollsInTime(events, user) && Clock(events) <= now && InTime(Run(events, user).reqs, now)
    ensures var c := Run(events, user);
      var c1 := Apply(c, Event(now, PollStep), user);
      var due := DueSends(c.reqs, now);
      && c.sends + due <= c1.sends
      && forall k :: |c.sends| + |due| <= k < |c1.sends| ==> c1.sends[k].rid >= c.allocs
  {
    hide PollPass, DueSends, InTime, OnSchedule;
    var c := Run(events, user);
    RunScheduled(events, user);
    ScheduledLater(c.reqs, Clock(events), now);
    assert c.reqs[0..] == c.reqs;
    PassSends(c, 0, user, now);
  }

  /** How often the ideal schedule was seen to move on by polls at these times. */
  function Rises(start: int, ack: AckTimeout, polls: seq<int>): nat
  {
    if polls == [] then 0
    else
      var before := polls[..|polls| - 1];
      Rises(start, ack, before) + if StageAt(start, ack, polls) > StageAt(start, ack, before) then 1 else 0
  }

  /** The present exchange of the request has sent one datagram each time a poll saw its schedule move on. */
  ghost predicate Counted(r: Req, sends: seq<Sent>)
  {
    SendsIn(sends, r.rid, r.exchange.number) == Rises(r.exchange.start, r.pending.ack, r.exchange.polls)
  }

  ghost predicate AllCounted(c: Client)
  {
    forall k :: 0 <= k < |c.reqs| ==> Counted(c.reqs[k], c.sends)
  }

  /** Everything but polling. */
  lemma TendedCounted(c: Client, c1: Client, now: int)
    requires SendInv(c) && AllCounted(c) && Tended(c, c1, now)
    ensures AllCounted(c1)
  {
    forall k | 0 <= k < |c1.reqs|
      ensures Counted(c1.reqs[k], c1.sends)
    {
      var r := c1.reqs[k];
      assert Stems(r, c, now);
      if r.rid >= c.allocs {
        NoSendsOf(c.sends, r.rid, r.exchange.number);
      }
      if !(r.rid >= c.allocs && Started(r, now)) {
        var j :| 0 <= j < |c.reqs| && Follows(c.reqs[j], r, now);
        assert Counted(c.reqs[j], c.sends) && Frugal(c.reqs[j], c.sends);
      }
    }
  }

  lemma PollOneCounted(c: Client, i: nat, user: User, now: int)
    requires Inv(c) && SendInv(c) && AllCounted(c) && i < |c.reqs| && !Settled(c.reqs[i])
    requires AllOnSchedule(c.reqs, now) && InTime(c.reqs[i..], now)
    ensures AllCounted(PollOne(c, i, user, now).0)
  {
    hide Inv, SendInv, InTime, OnSchedule, AllCounted, Poll, SendsIn, Rises, StageAt;
    var r := c.reqs[i];
    match Poll(r.pending, now, false)
    case GiveUp =>
      CallbackTended(c, i, ErrorRsp(-ETIMEDOUT), user, now);
      TendedCounted(c, PollOne(c, i, user, now).0, now);
    case Wait(p, send, _) =>
      assert OnSchedule(r, now);
      InTimeTail(c.reqs, i, now);
      PolledOnSchedule(r, now);
      Distinct(c);
      SameAck(r, now);
      OneCounted(c, i, p, send, now, PollOne(c, i, user, now).0);
  }

  lemma Distinct(c: Client)
    requires Inv(c)
    ensures forall j, k :: 0 <= j < k < |c.reqs| ==> c.reqs[j].rid != c.reqs[k].rid
  {
    OwnedMeans(c);
  }

  lemma SameAck(r: Req, now: int)
    requires OnSchedule(r, now) && now < NextPoint(r) + HALF32 && Poll(r.pending, now, false).Wait?
    ensures Poll(r.pending, now, false).pending.ack == r.pending.ack
  {
    hide Poll, Deadline, StageFrom;
    PolledOnSchedule(r, now);
    IdealAck(r.exchange.start, r.pending.ack, StageFrom(r.exchange.start, r.pending.ack, 0, now));
  }

  lemma OneCounted(c: Client, i: nat, p: Pending, send: bool, now: int, c1: Client)
    requires AllCounted(c) && i < |c.reqs| && forall j, k :: 0 <= j < k < |c.reqs| ==> c.reqs[j].rid != c.reqs[k].rid
    requires p.ack == c.reqs[i].pending.ack
    requires send <==> StageFrom(c.reqs[i].exchange.start, p.ack, 0, now) > StageOf(c.reqs[i])
    requires var r := c.reqs[i];
      c1 == WithReq(c, i, Polled(r, p, now)).(
        sends := if send then c.sends + [Sent(r.rid, r.id, r.block2, r.exchange.number)] else c.sends)
    ensures AllCounted(c1)
  {
    hide SendsIn, StageFrom;
    var r := c.reqs[i];
    var polls := r.exchange.polls + [now];
    assert polls[..|polls| - 1] == r.exchange.polls;
    forall k | 0 <= k < |c1.reqs|
      ensures Counted(c1.reqs[k], c1.sends)
    {
      var q := c.reqs[k];
      assert Counted(q, c.sends);
      SendsAppend(c.sends, Sent(r.rid, r.id, r.block2, r.exchange.number), q.rid, q.exchange.number);
    }
  }

  lemma {:induction false} PassCounted(c: Client, i: nat, user: User, now: int)
    requires Inv(c) && SendInv(c) && AllCounted(c) && i <= |c.reqs|
    requires AllOnSchedule(c.reqs, now) && InTime(c.reqs[i..], now)
    ensures AllCounted(PollPass(c, i, user, now).0)
    decreases GiveUps(c.reqs[i..], now), |c.reqs| - i
  {
    hide Inv, SendInv, AllCounted, AllOnSchedule, InTime, PollOne;
    if i < |c.reqs| {
      InTimeTail(c.reqs, i, now);
      if Settled(c.reqs[i]) {
        GiveUpsTail(c.reqs, i, now);
        PassCounted(c, i + 1, user, now);
      } else {
        PollOneCounted(c, i, user, now);
        PollOneSends(c, i, user, now);
        PollOneInv(c, i, user, now);
        PollOneOnSchedule(c, i, user, now);
        PollOneKeeps(c, i, user, now);
        if i + 1 < |c.reqs| {
          PassCounted(PollOne(c, i, user, now).0, if GivesUp(c.reqs[i], now) then i else i + 1, user, now);
        }
      }
    }
  }

  /** In every run in order and in time each listed request has sent, in its present exchange, exactly as many datagrams as its
      polls saw its ideal schedule move on. */
  lemma SendsPerExchange(events: seq<Event>, user: User)
    requires Ordered(events) && PollsInTime(events, user)
    ensures var c := Run(events, user);
      forall r :: r in c.reqs ==>
        SendsIn(c.sends, r.rid, r.exchange.number) == Rises(r.exchange.start, r.pending.ack, r.exchange.polls)
  {
    RunCounted(events, user);
  }

  lemma {:induction false} RunCounted(events: seq<Event>, user: User)
    requires Ordered(events) && PollsInTime(events, user)
    ensures AllCounted(Run(events, user))
  {
    hide PollPass, ProcessRx, CancelAll, Submit, Ordered, PollsInTime, InTime, Tended, Inv, SendInv, AllOnSchedule;
    if events != [] {
      hide AllCounted;
      var init, e := events[..|events| - 1], events[|events| - 1];
      var c := Run(init, user);
      InitInTime(events, user);
      RunCounted(init, user);
      FourSendsPerExchange(init, user);
      RunInv(init, user);
      if e.step.PollStep? {
        RunScheduled(init, user);
        ScheduledLater(c.reqs, Clock(init), e.now);
        PassCounted(c, 0, user, e.now);
      } else {
        StepTended(c, e, user);
        TendedCounted(c, Apply(c, e, user), e.now);
      }
    }
  }

  /** Poll `k` came no later than in the stage after that of the poll before. */
  ghost predicate Prompt(start: int, ack: AckTimeout, polls: seq<int>, k: nat)
    requires k < |polls|
  {
    StageAt(start, ack, polls[..k]) <= StageAt(start, ack, polls[..k + 1]) <= StageAt(start, ack, polls[..k]) + 1
  }

  /** A request polled at least once in every stage has been sent as many times as its schedule says. */
  lemma {:induction false} PromptRises(start: int, ack: AckTimeout, polls: seq<int>)
    requires forall k :: 0 <= k < |polls| ==> Prompt(start, ack, polls, k)
    ensures Rises(start, ack, polls) == StageAt(start, ack, polls)
  {
    hide StageFrom;
    if polls != [] {
      var n := |polls| - 1;
      assert polls[..n + 1] == polls && Prompt(start, ack, polls, n);
      forall k | 0 <= k < n
        ensures Prompt(start, ack, polls[..n], k)
      {
        assert polls[..n][..k] == polls[..k] && polls[..n][..k + 1] == polls[..k + 1];
        assert Prompt(start, ack, polls, k);
      }
      PromptRises(start, ack, polls[..n]);
    }
  }

  // ----- From submission and get_next to the network

  /** The datagram was sent between `c` and `c1`. */
  predicate SentIn(c: Client, c1: Client, sent: Sent)
  {
    |c.sends| <= |c1.sends| && sent in c1.sends[|c.sends|..]
  }

  lemma {:induction false} DueIsSent(reqs: seq<Req>, i: nat, now: int)
    requires i < |reqs| && Due(reqs[i], now)
    ensures var r := reqs[i]; Sent(r.rid, r.id, r.block2, r.exchange.number) in DueSends(reqs, now)
  {
    hide Due;
    if i > 0 { DueIsSent(reqs[1..], i - 1, now); }
  }

  /** An exchange is due from its start until its schedule ends. */
  lemma NewlyDue(r: Req, now: int)
    requires r.exchange.polls == [] && (r.observe ==> r.isPending)
    requires r.exchange.start <= now < r.exchange.start + 15 * r.pending.ack
    ensures Due(r, now)
  {
    StageFiveMeans(r.exchange.start, r.pending.ack, 0, now);
    assert Pow2(0) == 1;
  }

  /** A request submitted to a connected client, an observation included, goes out at the first poll in its time, with its own
      id and no Block2 option. */
  lemma SubmittedIsSent(events: seq<Event>, user: User, d: Draft, now: int, poll: int)
    requires var longer := events + [Event(now, SubmitStep(d))];
      && Ordered(longer) && PollsInTime(longer, user) && now <= poll && InTime(Run(longer, user).reqs, poll)
    requires Run(events, user).connected && d.build.Built?
    requires now + d.delay <= poll < now + d.delay + 15 * d.ack
    ensures var c1 := Run(events + [Event(now, SubmitStep(d))], user);
      var rid := Run(events, user).allocs;
      && c1.reqs != [] && c1.reqs[|c1.reqs| - 1].rid == rid && c1.reqs[|c1.reqs| - 1].token == d.token
      && SentIn(c1, Apply(c1, Event(poll, PollStep), user), Sent(rid, d.id, None, 0))
  {
    hide PollPass, InTime, Ordered, PollsInTime, Due, DueSends;
    var longer := events + [Event(now, SubmitStep(d))];
    assert longer[..|longer| - 1] == events;
    var c1 := Run(longer, user);
    var r := c1.reqs[|c1.reqs| - 1];
    NewlyDue(r, poll);
    SentInPoll(longer, user, |c1.reqs| - 1, poll);
  }

  /** What is due in a run goes out in the poll. */
  lemma SentInPoll(events: seq<Event>, user: User, i: nat, now: int)
    requires Ordered(events) && PollsInTime(events, user) && Clock(events) <= now && InTime(Run(events, user).reqs, now)
    requires i < |Run(events, user).reqs| && Due(Run(events, user).reqs[i], now)
    ensures var c := Run(events, user);
      var r := c.reqs[i];
      SentIn(c, Apply(c, Event(now, PollStep), user), Sent(r.rid, r.id, r.block2, r.exchange.number))
  {
    hide Apply, Due, DueSends, InTime, Ordered, PollsInTime;
    var c := Run(events, user);
    PollSendsWhatIsDue(events, user, now);
    DueIsSent(c.reqs, i, now);
    var due := DueSends(c.reqs, now);
    var c1 := Apply(c, Event(now, PollStep), user);
    var k :| 0 <= k < |due| && due[k] == Sent(c.reqs[i].rid, c.reqs[i].id, c.reqs[i].block2, c.reqs[i].exchange.number);
    assert c1.sends[|c.sends|..][k] == c1.sends[|c.sends| + k] == (c.sends + due)[|c.sends| + k];
  }

  /** After get_next on a plain request the next poll in its time sends it under the new id, with the Block2 option for the offset
      wanted, as a new exchange. */
  lemma NextBlockIsSent(events: seq<Event>, user: User, rid: nat, n: Next, now: int, poll: int)
    requires var longer := events + [Event(now, NextStep(rid, n))];
      && Ordered(longer) && PollsInTime(longer, user) && now <= poll && InTime(Run(longer, user).reqs, poll)
    requires n.fits && now + n.delay <= poll < now + n.delay + 15 * n.ack
    requires var c := Run(events, user); var i := IndexOf(c.reqs, rid); i < |c.reqs| && !c.reqs[i].observe
    ensures var c := Run(events, user);
      var r := c.reqs[IndexOf(c.reqs, rid)];
      var c1 := Run(events + [Event(now, NextStep(rid, n))], user);
      SentIn(c1, Apply(c1, Event(poll, PollStep), user), Sent(rid, n.id, Some(WantedBlock(r.block)), r.exchange.number + 1))
  {
    hide PollPass, InTime, Ordered, PollsInTime, Due, DueSends;
    var longer := events + [Event(now, NextStep(rid, n))];
    assert longer[..|longer| - 1] == events;
    var c := Run(events, user);
    var i := IndexOf(c.reqs, rid);
    NewlyDue(Run(longer, user).reqs[i], poll);
    SentInPoll(longer, user, i, poll);
  }

  /** When the Block2 option does not fit, the request keeps its exchange and its schedule, and what is due of it goes out under the
      new id without one. */
  lemma RefusedBlockIsSent(events: seq<Event>, user: User, rid: nat, n: Next, now: int, poll: int)
    requires var longer := events + [Event(now, NextStep(rid, n))];
      && Ordered(longer) && PollsInTime(longer, user) && now <= poll && InTime(Run(longer, user).reqs, poll)
    requires !n.fits
    requires var c := Run(events, user);
      var i := IndexOf(c.reqs, rid);
      i < |c.reqs| && !c.reqs[i].observe && Due(c.reqs[i], poll)
    ensures var c := Run(events, user);
      var r := c.reqs[IndexOf(c.reqs, rid)];
      var c1 := Run(events + [Event(now, NextStep(rid, n))], user);
      SentIn(c1, Apply(c1, Event(poll, PollStep), user), Sent(rid, n.id, None, r.exchange.number))
  {
    hide PollPass, InTime, Ordered, PollsInTime, DueSends, StageAt, StageFrom;
    var longer := events + [Event(now, NextStep(rid, n))];
    assert longer[..|longer| - 1] == events;
    SentInPoll(longer, user, IndexOf(Run(events, user).reqs, rid), poll);
  }

  /** When the only request runs out of retries, what its callback submits waits for the next poll. */
  lemma SubmittedInLastCallback(c: Client, user: User, now: int)
    requires |c.reqs| == 1 && AllOnSchedule(c.reqs, now) && InTime(c.reqs, now)
    requires !Settled(c.reqs[0]) && now >= c.reqs[0].exchange.start + 15 * c.reqs[0].pending.ack
    ensures var c1 := PollPass(c, 0, user, now).0;
      c1.sends == c.sends && forall k :: 0 <= k < |c1.reqs| ==> c1.reqs[k].exchange.polls == [] && c1.reqs[k].rid >= c.allocs
  {
    hide OnSchedule, Poll;
    var r := c.reqs[0];
    assert OnSchedule(r, now) && c.reqs[0..] == c.reqs;
    InTimeTail(c.reqs, 0, now);
    PolledOnSchedule(r, now);
    DroppedSends(c, 0, user, now);
    InvokeKeeps(c, 0, ErrorRsp(-ETIMEDOUT), false, user, now);
    var c1 := Invoke(c, 0, ErrorRsp(-ETIMEDOUT), false, user, now).0;
    assert forall k :: 1 <= k < |c1.reqs| ==> JustSubmitted(c1.reqs[k], now);
  }
}
