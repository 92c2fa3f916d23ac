/** The CoAP request engine as net/golioth/coap_req.c writes it: request objects updated in place, a list of them edited in
    loops. Each method is proved to do what the Engine function of its name says. */
module CoapClient {
  import opened Common
  import opened Backoff
  import opened ObserveOrder
  import E = Engine
  import opened EngineTypes = Engine

  /** `struct golioth_coap_req`. */
  class CoapRequest {
    const rid: nat
    const token: seq<byte>
    const observe: bool
    var id: nat
    var isPending: bool
    var pending: Pending
    ghost var exchange: Exchange
    var reply: Reply
    var block: BlockCtx
    var block2: Option<nat>

    ghost function View(): Req
      reads this
    {
      Req(rid, token, id, observe, isPending, pending, exchange, reply, block, block2)
    }

    /** `golioth_coap_req_init`, `is_observe` and the timer set when it is scheduled. */
    constructor (rid: nat, d: Draft, now: int)
      ensures View() == NewReq(rid, d, now)
    {
      this.rid, token, id, observe := rid, d.token, d.id, d.observe;
      isPending := d.observe;
      pending := PendingInit(now + d.delay, d.ack);
      exchange := Exchange(0, now + d.delay, []);
      reply := INITIAL_REPLY;
      block := BlockCtx(0, d.szx, 0);
      block2 := None;
    }

    /** `golioth_coap_req_next_block` on a plain request. */
    method NextBlock(n: Next, now: int) returns (err: int)
      modifies this
      ensures err == if n.fits then 0 else -EINVAL
      ensures View() == E.NextBlock(old(View()), n, now)
    {
      id := n.id;
      block2 := None;
      if !n.fits {
        return -EINVAL;
      }
      block2 := Some(WantedBlock(block));
      pending := PendingInit(now + n.delay, n.ack);
      exchange := Exchange(exchange.number + 1, now + n.delay, []);
      return 0;
    }

    /** By as much of the token as the packet carries, by id when it carries none. */
    predicate AnsweredBy(rx: Packet)
      reads this
    {
      if rx.token == [] then id == rx.id && !(id == 0 && token == []) else rx.token <= token
    }

    /** `golioth_coap_pending_cycle`. */
    method PendingCycle() returns (send: bool)
      modifies this`pending
      ensures send <==> Cycle(old(pending)).Some?
      ensures pending == if send then Cycle(old(pending)).value else old(pending)
    {
      if pending.timeout == 0 {
        pending := pending.(timeout := pending.ack);
        return true;
      }
      if pending.retries == 0 {
        return false;
      }
      pending := pending.(t0 := Wrap32(pending.t0 + pending.timeout));
      pending := pending.(timeout := Wrap32(pending.timeout * 2));
      pending := pending.(retries := pending.retries - 1);
      return true;
    }

    /** The loop of `golioth_coap_req_poll_prepare`: cycles until the next deadline is ahead or the retries are used up. */
    method Cycles(now: int) returns (gone: bool, send: bool, remaining: int)
      modifies this`pending
      ensures Poll(old(pending), now, false) == if gone then GiveUp else Wait(pending, send, remaining)
    {
      send := false;
      remaining := Remaining(pending, now);
      while remaining <= 0
        invariant remaining == Remaining(pending, now)
        invariant Poll(pending, now, send) == Poll(old(pending), now, false)
        decreases pending.retries, pending.timeout == 0
      {
        send := PendingCycle();
        if !send {
          return true, false, 0;
        }
        remaining := Remaining(pending, now);
      }
      gone := false;
    }
  }

  ghost function Views(rs: seq<CoapRequest>): (r: seq<Req>)
    reads rs
    ensures |r| == |rs| && forall i :: 0 <= i < |rs| ==> r[i] == rs[i].View()
  {
    seq(|rs|, i requires 0 <= i < |rs| reads rs => rs[i].View())
  }

  class GoliothClient {
    const user: User
    var connected: bool
    var reqs: seq<CoapRequest>
    var calls: seq<Call>
    ghost var sends: seq<Sent>
    var allocs: nat
    var accepted: map<nat, bool>
    var freed: seq<nat>
    var wakeups: nat

    ghost function State(): Client
      reads this, reqs
    {
      Client(connected, Views(reqs), calls, sends, allocs, accepted, freed, wakeups)
    }

    /** The list holds no request twice. */
    ghost predicate Valid()
      reads this
    {
      forall i, j :: 0 <= i < j < |reqs| ==> reqs[i] != reqs[j]
    }

    /** What a step leaves of the old list: its objects, in place, with only new objects after them. */
    twostate predicate Appended()
      reads this
    {
      && old(|reqs|) <= |reqs| && reqs[..old(|reqs|)] == old(reqs)
      && forall k :: old(|reqs|) <= k < |reqs| ==> fresh(reqs[k])
    }

    /** `golioth_coap_reqs_init`. */
    constructor (user: User)
      ensures Valid() && State() == INITIAL_CLIENT && this.user == user && fresh(reqs)
    {
      this.user := user;
      connected := false;
      reqs, calls, sends, allocs, accepted, freed, wakeups := [], [], [], 0, map[], [], 0;
    }

    /** `golioth_coap_req_cb`: a request is allocated, submitted, and freed again when that fails. */
    method Submit(d: Draft, now: int)
      requires Valid()
      modifies this
      ensures Valid() && Appended() && State() == E.Submit(old(State()), d, now)
    {
      if d.build.NoMemory? {
        return;
      }
      if d.build.BadPacket? || !connected {
        allocs, freed := allocs + 1, freed + [allocs];
      } else {
        var req := new CoapRequest(allocs, d, now);
        Schedule(req);
      }
    }

    /** `golioth_coap_req_schedule` while connected: the new request is appended to the list, the poll loop woken. */
    method Schedule(req: CoapRequest)
      requires Valid() && req !in reqs && req.rid == allocs
      modifies this`reqs, this`accepted, this`wakeups, this`allocs
      ensures Valid() && reqs == old(reqs) + [req]
      ensures State() ==
        (var c := old(State());
         c.(reqs := c.reqs + [req.View()], accepted := map[req.rid := req.observe] + c.accepted,
            wakeups := c.wakeups + 1, allocs := c.allocs + 1))
    {
      reqs, accepted, wakeups, allocs := reqs + [req], map[req.rid := req.observe] + accepted, wakeups + 1, allocs + 1;
      assert reqs[..|reqs| - 1] == old(reqs);
    }

    method SubmitAll(ds: seq<Draft>, now: int)
      requires Valid()
      modifies this
      ensures Valid() && Appended() && State() == E.SubmitAll(old(State()), ds, now)
    {
      for n := 0 to |ds|
        invariant Valid() && Appended()
        invariant State() == E.SubmitAll(old(State()), ds[..n], now)
      {
        Submit(ds[n], now);
        assert ds[..n + 1][..n] == ds[..n];
      }
      assert ds[..|ds|] == ds;
    }

    /** Replacing the fields of one request shows in the list at its position only. */
    twostate lemma OnlyAt(i: nat)
      requires i < |reqs| && reqs == old(reqs) && Valid()
      requires forall k :: 0 <= k < |reqs| && k != i ==> unchanged(reqs[k])
      ensures Views(reqs) == old(Views(reqs))[i := reqs[i].View()]
    {
    }

    /** The user's callback of the request at `i`, with `get_next` and submissions made meanwhile. */
    method Invoke(i: nat, rsp: Rsp, nested: bool, now: int) returns (ret: int)
      requires Valid() && i < |reqs|
      modifies this, reqs[i]
      ensures Valid() && Appended() && (State(), ret) == E.Invoke(old(State()), i, rsp, nested, user, now)
      decreases rsp.more, 1
    {
      var req := reqs[i];
      var reaction := user(calls, req.rid, rsp);
      calls := calls + [Call(req.rid, req.observe, nested, rsp, reaction.ret)];
      if rsp.more && reaction.next.Some? {
        GetNext(i, reaction.next.value, now);
      }
      SubmitAll(reaction.submits, now);
      ret := reaction.ret;
    }

    /** `golioth_coap_req_next_block`: an observation only reports that it cannot. */
    method GetNext(i: nat, n: Next, now: int)
      requires Valid() && i < |reqs|
      modifies this, reqs[i]
      ensures Valid() && Appended()
      ensures State() ==
        (var c := old(State());
         if c.reqs[i].observe then E.Invoke(c, i, ErrorRsp(-ENOTSUP), true, user, now).0
         else WithReq(c, i, E.NextBlock(c.reqs[i], n, now)))
      decreases true, 0
    {
      if reqs[i].observe {
        var _ := Invoke(i, ErrorRsp(-ENOTSUP), true, now);
      } else {
        var _ := reqs[i].NextBlock(n, now);
        OnlyAt(i);
      }
    }

    /** `golioth_coap_req_cancel_and_free`. */
    method CancelAndFree(i: nat)
      requires Valid() && i < |reqs|
      modifies this`reqs, this`freed
      ensures Valid() && reqs == old(reqs)[..i] + old(reqs)[i + 1..]
      ensures State() == E.Remove(old(State()), i)
    {
      freed := freed + [reqs[i].rid];
      reqs := reqs[..i] + reqs[i + 1..];
      assert Views(reqs) == old(Views(reqs))[..i] + old(Views(reqs))[i + 1..];
    }

    /** Every listed request was listed before or is new. */
    twostate predicate Within()
      reads this
    {
      forall r :: r in reqs ==> r in old(reqs) || fresh(r)
    }

    /** The common exit of the reply handler: an answered observation stays, anything else goes. */
    method CancelOrSettle(i: nat, err: int)
      requires Valid() && i < |reqs|
      modifies this`reqs, this`freed, reqs[i]
      ensures Valid() && Within()
      ensures State() ==
        (var c := old(State());
         if c.reqs[i].observe && err == 0 then WithReq(c, i, c.reqs[i].(isPending := false)) else Remove(c, i))
    {
      if reqs[i].observe && err == 0 {
        reqs[i].isPending := false;
        OnlyAt(i);
      } else {
        CancelAndFree(i);
      }
    }

    method SetBlock(i: nat, block: BlockCtx)
      requires Valid() && i < |reqs|
      modifies reqs[i]
      ensures State() == (var c := old(State()); WithReq(c, i, c.reqs[i].(block := block)))
    {
      reqs[i].block := block;
      OnlyAt(i);
    }

    /** A callback with the last word on its request, and the exit. */
    method Report(i: nat, rsp: Rsp, now: int)
      requires Valid() && i < |reqs| && !rsp.more
      modifies this, reqs[i]
      ensures Valid() && Within()
      ensures State() ==
        (var c := old(State());
         if rsp.err == 0 then Complete(c, i, rsp, user, now) else Finish(c, i, rsp, user, now))
    {
      InvokeKeeps(State(), i, rsp, false, user, now);
      var _ := Invoke(i, rsp, false, now);
      CancelOrSettle(i, rsp.err);
    }

    /** `golioth_coap_req_reply_handler`. */
    method ReplyHandler(i: nat, rx: Packet, now: int)
      requires Valid() && i < |reqs|
      modifies this, reqs[i]
      ensures Valid() && Within() && State() == HandleReply(old(State()), i, rx, user, now)
    {
      var err := CodeToPosix(rx.code);
      if err != 0 {
        Report(i, ErrorRsp(err), now);
      } else if rx.block2.Some? {
        BlockReply(i, rx, rx.block2.value, now);
      } else {
        Report(i, Rsp(rx.payload, 0, |rx.payload|, false, 0), now);
      }
    }

    /** The Block2 branch of the reply handler. */
    method BlockReply(i: nat, rx: Packet, option: nat, now: int)
      requires Valid() && i < |reqs| && CodeToPosix(rx.code) == 0 && rx.block2 == Some(option)
      modifies this, reqs[i]
      ensures Valid() && Within() && State() == HandleReply(old(State()), i, rx, user, now)
    {
      var want := reqs[i].block.current;
      var updated := UpdateFromBlock(reqs[i].block, option, rx.size2);
      if updated.None? {
        Report(i, ErrorRsp(-EBADMSG), now);
        return;
      }
      var ctx := updated.value;
      if ctx.current < want {
        SetBlock(i, ctx.(current := want));
        return;
      }
      var (after, off) := NextOffset(ctx, option, |rx.payload|);
      SetBlock(i, after);
      if off == 0 {
        Report(i, Rsp(rx.payload, ctx.current, after.total, false, 0), now);
      } else {
        MoreToCome(i, Rsp(rx.payload, ctx.current, after.total, true, if reqs[i].observe then -EMSGSIZE else 0), now);
      }
    }

    method MoreToCome(i: nat, rsp: Rsp, now: int)
      requires Valid() && i < |reqs|
      modifies this, reqs[i]
      ensures Valid() && Within() && State() == Continue(old(State()), i, rsp, user, now)
    {
      InvokeKeeps(State(), i, rsp, false, user, now);
      var err := Invoke(i, rsp, false, now);
      if err != 0 || reqs[i].observe {
        CancelAndFree(i);
      }
    }

    /** `golioth_coap_req_process_rx`. */
    method ProcessRx(rx: Packet, now: int)
      requires Valid()
      modifies this, reqs
      ensures Valid() && Within() && State() == E.ProcessRx(old(State()), rx, user, now)
    {
      var i := 0;
      while i < |reqs| && !reqs[i].AnsweredBy(rx)
        invariant i <= |reqs|
        invariant forall j :: 0 <= j < i ==> !Matches(Views(reqs)[j], rx)
      {
        i := i + 1;
      }
      FirstMatch(Views(reqs), rx, i);
      if i == |reqs| {
        return;
      }
      if rx.observe.Some? {
        if !ReplyIsNewer(reqs[i].reply, rx.observe.value, now) {
          return;
        }
        SetReply(i, Reply(rx.observe.value, now));
      }
      ReplyHandler(i, rx, now);
    }

    method SetReply(i: nat, reply: Reply)
      requires Valid() && i < |reqs|
      modifies reqs[i]
      ensures State() == (var c := old(State()); WithReq(c, i, c.reqs[i].(reply := reply)))
    {
      reqs[i].reply := reply;
      OnlyAt(i);
    }

    /** `golioth_coap_req_poll_prepare`; `gone` tells that the request was given up. */
    method PollRequest(i: nat, now: int) returns (gone: bool, timeout: Option<int>)
      requires Valid() && i < |reqs|
      modifies this, reqs[i]
      ensures Valid() && Within() && (State(), timeout) == PollOne(old(State()), i, user, now)
      ensures gone <==> Poll(old(reqs[i].pending), now, false).GiveUp?
    {
      hide Finish, Poll;
      var send, remaining;
      gone, send, remaining := reqs[i].Cycles(now);
      OnlyAt(i);
      if gone {
        FinishIgnoresTimer(old(State()), i, reqs[i].pending, user, now);
        Report(i, ErrorRsp(-ETIMEDOUT), now);
        return true, None;
      }
      PolledOnce(old(State()), i, reqs[i].pending, now);
      Transmit(i, send, now);
      timeout := Some(remaining);
    }

    /** `golioth_coap_req_send` if the timer says so; its error is not looked at. The poll and the datagram are recorded. */
    method Transmit(i: nat, send: bool, now: int)
      requires Valid() && i < |reqs|
      modifies this`sends, reqs[i]
      ensures State() ==
        (var c := old(State());
         var r := c.reqs[i];
         var c1 := WithReq(c, i, Polled(r, r.pending, now));
         if send then c1.(sends := c1.sends + [Sent(r.rid, r.id, r.block2, r.exchange.number)]) else c1)
    {
      var req := reqs[i];
      req.exchange := req.exchange.(polls := req.exchange.polls + [now]);
      OnlyAt(i);
      if send {
        sends := sends + [Sent(req.rid, req.id, req.block2, req.exchange.number)];
      }
    }

    /** One turn of the poll loop: the request at `i`, unless it is an answered observation. */
    method PollTurn(i: nat, now: int) returns (next: nat, timeout: Option<int>)
      requires Valid() && i < |reqs|
      modifies this, reqs[i]
      ensures Valid() && Within() && next <= |reqs|
      ensures i + 1 < old(|reqs|) ==> next < |reqs|
      ensures GiveUps(Views(reqs)[next..], now) < old(GiveUps(Views(reqs)[i..], now)) ||
              (GiveUps(Views(reqs)[next..], now) == old(GiveUps(Views(reqs)[i..], now)) && |reqs| - next < old(|reqs|) - i)
      ensures PollPass(old(State()), i, user, now) ==
        if i + 1 == old(|reqs|) then (State(), timeout)
        else (PollPass(State(), next, user, now).0, MinTimeout(timeout, PollPass(State(), next, user, now).1))
    {
      GiveUpsTail(Views(reqs), i, now);
      if reqs[i].observe && !reqs[i].isPending {
        return i + 1, None;
      }
      ghost var c := State();
      PollOneKeeps(c, i, user, now);
      var gone;
      gone, timeout := PollRequest(i, now);
      next := if gone then i else i + 1;
      assert State() == PollOne(c, i, user, now).0;
    }

    /** `__golioth_coap_reqs_poll_prepare`: the next node is looked up before the present one is handled. */
    method PollPrepare(now: int) returns (minTimeout: Option<int>)
      requires Valid()
      modifies this, reqs
      ensures Valid() && (State(), minTimeout) == PollPass(old(State()), 0, user, now)
    {
      minTimeout := None;
      var i: nat := 0;
      var more := |reqs| > 0;
      while more
        invariant Valid() && Within() && i <= |reqs| && (more ==> i < |reqs|)
        invariant PassFrom(State(), more, i, minTimeout, user, now) == PollPass(old(State()), 0, user, now)
        decreases GiveUps(Views(reqs)[i..], now), |reqs| - i
      {
        ghost var c, j, m := State(), i, minTimeout;
        more := i + 1 < |reqs|;
        assert reqs[i] in reqs;
        var timeout;
        i, timeout := PollTurn(i, now);
        minTimeout := MinTimeout(minTimeout, timeout);
        TurnTaken(c, j, m, State(), i, timeout, user, now);
      }
    }

    /** `golioth_coap_reqs_cancel_all_with_reason`. */
    method CancelAllWithReason(reason: int, now: int)
      requires Valid() && !connected && reason != 0
      modifies this, reqs
      ensures Valid() && State() == CancelAll(old(State()), reason, user, now)
    {
      while |reqs| > 0
        invariant Valid() && Within() && !connected
        invariant CancelAll(State(), reason, user, now) == CancelAll(old(State()), reason, user, now)
        decreases |reqs|
      {
        InvokeKeeps(State(), 0, ErrorRsp(reason), false, user, now);
        assert reqs[0] in reqs;
        Report(0, ErrorRsp(reason), now);
      }
    }

    /** `golioth_coap_reqs_on_connect`. */
    method OnConnect()
      modifies this`connected
      ensures State() == E.OnConnect(old(State()))
    {
      connected := true;
    }

    /** `golioth_coap_reqs_on_disconnect`: submission is refused before the callbacks run. */
    method OnDisconnect(now: int)
      requires Valid()
      modifies this, reqs
      ensures Valid() && State() == E.OnDisconnect(old(State()), user, now)
    {
      connected := false;
      CancelAllWithReason(-ESHUTDOWN, now);
    }
  }

  /** A poll pass from `i` on after `soFar`, or at its end. */
  function PassFrom(c: Client, more: bool, i: nat, soFar: Option<int>, user: User, now: int): (Client, Option<int>)
  {
    if more && i <= |c.reqs| then
      var (c1, t) := PollPass(c, i, user, now);
      (c1, MinTimeout(soFar, t))
    else (c, soFar)
  }

  lemma TurnTaken(c: Client, i: nat, soFar: Option<int>, c1: Client, j: nat, t: Option<int>, user: User, now: int)
    requires i < |c.reqs| && j <= |c1.reqs|
    requires PollPass(c, i, user, now) ==
      if i + 1 == |c.reqs| then (c1, t)
      else (PollPass(c1, j, user, now).0, MinTimeout(t, PollPass(c1, j, user, now).1))
    ensures PassFrom(c1, i + 1 < |c.reqs|, j, MinTimeout(soFar, t), user, now) == PassFrom(c, true, i, soFar, user, now)
  {
  }

  lemma {:induction false} FirstMatch(reqs: seq<Req>, rx: Packet, i: nat)
    requires i <= |reqs| && forall j :: 0 <= j < i ==> !Matches(reqs[j], rx)
    requires i < |reqs| ==> Matches(reqs[i], rx)
    ensures FindMatch(reqs, rx) == i
  {
    var k := FindMatch(reqs, rx);
    assert k <= i;
  }

  /** Moving the timer and noting the poll, in two steps or in one. */
  lemma PolledOnce(c: Client, i: nat, p: Pending, now: int)
    requires i < |c.reqs|
    ensures var c1 := WithReq(c, i, c.reqs[i].(pending := p));
      WithReq(c1, i, Polled(c1.reqs[i], p, now)) == WithReq(c, i, Polled(c.reqs[i], p, now))
  {
  }

  /** Cycles made before a request is given up leave no trace. */
  lemma FinishIgnoresTimer(c: Client, i: nat, p: Pending, user: User, now: int)
    requires i < |c.reqs|
    ensures var rsp := ErrorRsp(-ETIMEDOUT);
      Finish(WithReq(c, i, c.reqs[i].(pending := p)), i, rsp, user, now) == Finish(c, i, rsp, user, now)
  {
    var rsp := ErrorRsp(-ETIMEDOUT);
    var r1 := c.reqs[i].(pending := p);
    var reaction := user(c.calls, c.reqs[i].rid, rsp);
    var c1 := c.(calls := c.calls + [Call(c.reqs[i].rid, c.reqs[i].observe, false, rsp, reaction.ret)]);
    SubmitAllBeside(c1, i, r1, reaction.submits, now);
    SubmitAllKeeps(c1, reaction.submits, now);
    InvokeKeeps(c, i, rsp, false, user, now);
    InvokeKeeps(WithReq(c, i, r1), i, rsp, false, user, now);
    var c2 := SubmitAll(c1, reaction.submits, now);
    assert Remove(WithReq(c2, i, r1), i) == Remove(c2, i);
  }

  lemma {:induction false} SubmitAllBeside(c: Client, i: nat, r: Req, ds: seq<Draft>, now: int)
    requires i < |c.reqs| && r.rid == c.reqs[i].rid
    ensures |c.reqs| <= |SubmitAll(c, ds, now).reqs|
    ensures SubmitAll(WithReq(c, i, r), ds, now) == WithReq(SubmitAll(c, ds, now), i, r)
  {
    if ds != [] {
      SubmitAllBeside(c, i, r, ds[..|ds| - 1], now);
      var before := SubmitAll(c, ds[..|ds| - 1], now);
      var d := ds[|ds| - 1];
      assert (before.reqs + [NewReq(before.allocs, d, now)])[i := r] == before.reqs[i := r] + [NewReq(before.allocs, d, now)];
    }
  }
}
