/** Block-wise reads do get through: whatever the resource and the block size, a network that loses nothing and a user that takes
    every block bring the whole resource over. */
module BlockwiseProgress {
  import opened Common
  import opened Backoff
  import opened Engine
  import opened EngineInvariants
  import opened Blockwise

  /** A user that accepts every payload and asks for the next block when it can. */
  ghost predicate Eager(user: User)
  {
    forall calls, rid, rsp ::
      user(calls, rid, rsp).ret == 0 && user(calls, rid, rsp).submits == []
      && user(calls, rid, rsp).next.Some? && user(calls, rid, rsp).next.value.fits
  }

  /** The only request is a read that wants the block at `off` and is due at `clock`. */
  ghost predicate Wanting(c: Client, off: nat, szx: nat, clock: int)
  {
    && |c.reqs| == 1 && szx <= 6 && Aligned(off, szx)
    && var r := c.reqs[0];
       && r.rid == 0 && !r.observe && r.token != [] && r.block == BlockCtx(off, szx, 0)
       && r.block2 == (if off == 0 then None else Some(WantedBlock(r.block)))
       && r.pending == PendingInit(clock, r.pending.ack)
  }

  /** The server's answer for the block at `off`. */
  function BlockOf(resource: seq<byte>, off: nat, szx: nat, r: Req): Packet
    requires off <= |resource|
  {
    var size := BlockSize(szx);
    Packet(69, r.id, r.token, None, Some(BlockOption(Quotient(off, size), off + size < |resource|, szx)), 0,
           resource[off..Min(off + size, |resource|)])
  }

  lemma PollSends(c: Client, off: nat, szx: nat, clock: int, user: User)
    requires Wanting(c, off, szx, clock)
    ensures var c1 := PollPass(c, 0, user, clock).0;
      var r := c.reqs[0];
      |c1.reqs| == 1 && c1 == c.(reqs := [Polled(r, c1.reqs[0].pending, clock)],
                                      sends := c.sends + [Sent(0, r.id, r.block2, r.exchange.number)])
  {
    var r := c.reqs[0];
    EndStages(clock, r.pending.ack);
    NextDeadline(clock, r.pending.ack, 0);
    PollFollowsIdeal(clock, r.pending.ack, 0, clock, false);
  }

  lemma OptionOf(resource: seq<byte>, off: nat, szx: nat, r: Req)
    requires off <= |resource| && szx <= 6 && Aligned(off, szx)
    ensures var option := BlockOf(resource, off, szx, r).block2.value;
      OffsetOf(option) == off && Szx(option) == szx && (More(option) <==> off + BlockSize(szx) < |resource|)
  {
    DivideExactly(off, BlockSize(szx));
    OptionParts(Quotient(off, BlockSize(szx)), off + BlockSize(szx) < |resource|, szx);
  }

  lemma IsAnswer(server: Server, off: nat, szx: nat, r: Req)
    requires off <= |server.resource| && szx <= 6 && Aligned(off, szx) && !server.whole
    requires r.block2 == (if off == 0 then None else Some(WantedBlock(BlockCtx(off, szx, 0))))
    ensures Answers(server, Sent(0, r.id, r.block2, r.exchange.number), BlockOf(server.resource, off, szx, r))
  {
    OptionOf(server.resource, off, szx, r);
    WantedBlockOffset(BlockCtx(off, szx, 0));
    assert BlockAnswer(server, Sent(0, r.id, r.block2, r.exchange.number), BlockOf(server.resource, off, szx, r),
                       BlockOf(server.resource, off, szx, r).block2.value);
  }

  /** The answer is handed over; then the next block is wanted, or the transfer is finished. */
  lemma BlockArrives(c: Client, resource: seq<byte>, off: nat, szx: nat, now: int, user: User) returns (clock: int)
    requires |c.reqs| == 1 && szx <= 6 && Aligned(off, szx) && off <= |resource| && Eager(user)
    requires var r := c.reqs[0]; r.rid == 0 && !r.observe && r.token != [] && r.block == BlockCtx(off, szx, 0)
    ensures var c1 := ProcessRx(c, BlockOf(resource, off, szx, c.reqs[0]), user, now);
      if off + BlockSize(szx) < |resource| then Wanting(c1, off + BlockSize(szx), szx, clock)
      else Finished(c1.calls, 0)
  {
    var r := c.reqs[0];
    var rx := BlockOf(resource, off, szx, r);
    OptionOf(resource, off, szx, r);
    assert Matches(r, rx);
    var more := off + BlockSize(szx) < |resource|;
    var r1 := r.(block := BlockCtx(off + |rx.payload|, szx, 0));
    var rsp := Rsp(rx.payload, off, 0, more, 0);
    var reaction := user(c.calls, 0, rsp);
    var c1 := ProcessRx(c, rx, user, now);
    clock := now + reaction.next.value.delay;
    if more {
      MultipleIsAligned(1, BlockSize(szx));
      SumAligned(off, BlockSize(szx), szx);
    } else {
      assert c1.calls[|c.calls|] == Call(0, false, false, rsp, 0);
    }
  }

  lemma OneMoreEvent(events: seq<Event>, e: Event, user: User, rid: nat, server: Server)
    requires AllowedRun(events, user, rid, server) && Allowed(Run(events, user), e, rid, server)
    ensures AllowedRun(events + [e], user, rid, server)
    ensures Run(events + [e], user) == Apply(Run(events, user), e, user)
  {
    hide Allowed, Apply;
    var all := events + [e];
    assert all[..|events|] == events;
    forall n | 0 <= n < |all|
      ensures Allowed(Run(all[..n], user), all[n], rid, server)
    {
      if n < |events| {
        assert all[..n] == events[..n];
      }
    }
  }

  /** One exchange: the request is sent, the answer comes. */
  lemma Exchange(events: seq<Event>, resource: seq<byte>, off: nat, szx: nat, clock: int, user: User)
    returns (longer: seq<Event>, next: int)
    requires AllowedRun(events, user, 0, Server(resource, false)) && Eager(user) && off <= |resource|
    requires Wanting(Run(events, user), off, szx, clock)
    ensures AllowedRun(longer, user, 0, Server(resource, false))
    ensures if off + BlockSize(szx) < |resource| then Wanting(Run(longer, user), off + BlockSize(szx), szx, next)
            else Finished(Run(longer, user).calls, 0)
  {
    hide PollPass, ProcessRx, BlockOf, WantedBlock, BlockSize, Answers;
    var c, server := Run(events, user), Server(resource, false);
    var r := c.reqs[0];
    var poll := Event(clock, PollStep);
    PollSends(c, off, szx, clock, user);
    OneMoreEvent(events, poll, user, 0, server);
    var c1 := Run(events + [poll], user);
    var rx := Event(clock, RxStep(BlockOf(resource, off, szx, c1.reqs[0])));
    IsAnswer(server, off, szx, c1.reqs[0]);
    assert c1.sends[|c.sends|] == Sent(0, r.id, r.block2, r.exchange.number);
    assert Allowed(c1, rx, 0, server);
    OneMoreEvent(events + [poll], rx, user, 0, server);
    longer := events + [poll] + [rx];
    next := BlockArrives(c1, resource, off, szx, clock, user);
  }

  lemma {:induction false} Exchanges(events: seq<Event>, resource: seq<byte>, off: nat, szx: nat, clock: int, user: User)
    returns (longer: seq<Event>)
    requires AllowedRun(events, user, 0, Server(resource, false)) && Eager(user) && off <= |resource|
    requires Wanting(Run(events, user), off, szx, clock)
    ensures AllowedRun(longer, user, 0, Server(resource, false)) && Finished(Run(longer, user).calls, 0)
    decreases |resource| - off
  {
    hide AllowedRun, Wanting, Finished;
    var next;
    longer, next := Exchange(events, resource, off, szx, clock, user);
    if off + BlockSize(szx) < |resource| {
      longer := Exchanges(longer, resource, off + BlockSize(szx), szx, next, user);
    }
  }

  lemma Started(d: Draft, resource: seq<byte>, user: User) returns (events: seq<Event>)
    requires d.build.Built? && !d.observe && d.token != []
    ensures AllowedRun(events, user, 0, Server(resource, false)) && Wanting(Run(events, user), 0, d.szx, d.delay)
  {
    hide *;
    var server := Server(resource, false);
    var connect, submit := Event(0, ConnectStep), Event(0, SubmitStep(d));
    NothingYet(user, server);
    FirstSteps(d, user, server);
    OneMoreEvent([], connect, user, 0, server);
    OneMoreEvent([] + [connect], submit, user, 0, server);
    events := [] + [connect] + [submit];
  }

  lemma FirstSteps(d: Draft, user: User, server: Server)
    requires d.build.Built? && !d.observe && d.token != []
    ensures var connect, submit := Event(0, ConnectStep), Event(0, SubmitStep(d));
      var c := Apply(INITIAL_CLIENT, connect, user);
      && Allowed(INITIAL_CLIENT, connect, 0, server) && Allowed(c, submit, 0, server)
      && Wanting(Apply(c, submit, user), 0, d.szx, d.delay)
  {
    hide PollPass, ProcessRx, CancelAll, BlockSize, WantedBlock, FindMatch;
    MultipleIsAligned(0, BlockSize(d.szx));
    var c := Apply(INITIAL_CLIENT, Event(0, ConnectStep), user);
    assert Apply(c, Event(0, SubmitStep(d)), user).reqs == [NewReq(0, d, 0)];
  }

  lemma NothingYet(user: User, server: Server)
    ensures AllowedRun([], user, 0, server) && Run([], user) == INITIAL_CLIENT
  {
  }

  /** For every resource, block size and user that takes all blocks there is a run in which the callback is given the whole
      resource. */
  lemma TransferCompletes(resource: seq<byte>, d: Draft, user: User) returns (events: seq<Event>)
    requires Eager(user) && d.build.Built? && !d.observe && d.token != []
    ensures AllowedRun(events, user, 0, Server(resource, false))
    ensures Finished(Run(events, user).calls, 0) && Delivered(Run(events, user).calls, 0) == resource
  {
    hide AllowedRun, Wanting, Finished, Run, Delivered;
    events := Started(d, resource, user);
    events := Exchanges(events, resource, 0, d.szx, d.delay, user);
    BlockwiseSafety(events, user, 0, Server(resource, false));
  }
}
