/** The CoAP request engine of net/golioth/coap_req.c as functions on client values: submission, polling,
    received packets, callbacks that re-enter the engine, connect and disconnect.

    A client value also records what happened to it: the callbacks made, the datagrams sent, and which
    requests were allocated, accepted and freed. User callbacks are an oracle that sees the whole history;
    it may ask for the next block and submit new requests from inside the callback. */
module Engine {
  import opened Common
  import opened Backoff
  import opened ObserveOrder

  // ----- Packets

  /** The parts of a received CoAP packet that the engine reads. */
  datatype Packet = Packet(code: byte, id: nat, token: seq<byte>, observe: Option<int>,
                           block2: Option<nat>, size2: nat, payload: seq<byte>)

  /** `golioth_coap_code_to_posix`: the response code as an error number, 0 for class 2. */
  function CodeToPosix(code: byte): int
  {
    if code / 32 == 2 then 0
    else match code
      case 128 => -EFAULT
      case 129 => -EACCES
      case 130 => -EINVAL
      case 131 => -EACCES
      case 132 => -ENOENT
      case 133 => -EACCES
      case 134 => -EACCES
      case 136 => -EINVAL
      case 137 => -EBUSY
      case 140 => -EACCES
      case 141 => -E2BIG
      case 143 => -ENOTSUP
      case 150 => -EBADMSG
      case 157 => -EBUSY
      case _ => -EBADMSG
  }

  // ----- Block-wise transfers (section 2 of RFC 7959)

  /** `current` is the offset wanted next, `szx` the size exponent, `total` the announced size or 0. */
  datatype BlockCtx = BlockCtx(current: nat, szx: nat, total: nat)

  /** A block option value packs NUM, the more bit and SZX (section 2.2 of RFC 7959). */
  function BlockOption(num: nat, more: bool, szx: nat): nat
  {
    num * 16 + (if more then 8 else 0) + szx
  }

  function Num(option: nat): nat
  {
    option / 16
  }

  predicate More(option: nat)
  {
    option / 8 % 2 == 1
  }

  function Szx(option: nat): nat
  {
    option % 8
  }

  function BlockSize(szx: nat): (r: nat)
    ensures r >= 16
  {
    16 * Pow2(szx)
  }

  function OffsetOf(option: nat): nat
  {
    Num(option) * BlockSize(Szx(option))
  }

  /** The Block2 option that asks for the block at `ctx.current`. */
  function WantedBlock(ctx: BlockCtx): nat
  {
    BlockOption(Quotient(ctx.current, BlockSize(ctx.szx)), false, ctx.szx)
  }

  function Quotient(a: nat, b: nat): (q: nat)
    requires b > 0
    ensures q * b <= a < q * b + b
    ensures a % b == a - q * b
  {
    var q := a / b;
    assert a == q * b + a % b;
    q
  }

  /** What a response with a Block2 option does to the block context; `None` when it is inconsistent. */
  function UpdateFromBlock(ctx: BlockCtx, option: nat, size2: nat): Option<BlockCtx>
  {
    if size2 != 0 && ctx.total != 0 && ctx.total != size2 then None
    else if ctx.current > 0 && Szx(option) > ctx.szx then None
    else if ctx.total != 0 && OffsetOf(option) > ctx.total then None
    else Some(BlockCtx(OffsetOf(option), Min(Szx(option), ctx.szx), if size2 != 0 then size2 else ctx.total))
  }

  /** Moves past a received block. The offset is 0 after the last one. A block overrunning the announced size is
      an error in the helper; the engine stores it in a size_t, where it is a huge offset like any other. */
  function NextOffset(ctx: BlockCtx, option: nat, len: nat): (r: (BlockCtx, nat))
  {
    if ctx.total != 0 && ctx.total < ctx.current + len then (ctx, MOD32 - EMSGSIZE)
    else if More(option) then (ctx.(current := ctx.current + len), ctx.current + len)
    else (ctx.(current := ctx.current + len), 0)
  }

  // ----- Requests, callbacks, clients

  /** What happened to the timer of a request since it was last started: which of the request's exchanges this is, the clock it
      was started at in unbounded time, and when it was polled. Recorded, like calls and datagrams; the code keeps none of it. */
  datatype Exchange = Exchange(number: nat, start: int, polls: seq<int>)

  /** `struct golioth_coap_req`. `rid` names the allocation; `block2` is the Block2 option in the request packet. */
  datatype Req = Req(rid: nat, token: seq<byte>, id: nat, observe: bool, isPending: bool,
                     pending: Pending, exchange: Exchange, reply: Reply, block: BlockCtx, block2: Option<nat>)

  /** `struct golioth_req_rsp`; `more` stands for a non-NULL `get_next`. */
  datatype Rsp = Rsp(data: seq<byte>, off: nat, total: nat, more: bool, err: int)

  function ErrorRsp(err: int): Rsp
  {
    Rsp([], 0, 0, false, err)
  }

  /** Milliseconds between the start of an engine step and something done within it. */
  type Delay = d: int | 0 <= d < 0x8000_0000

  /** What message id, uptime and random timeout `get_next` draws, and whether the Block2 option fits into the packet. */
  datatype Next = Next(id: nat, delay: Delay, ack: AckTimeout, fits: bool)

  /** The block sizes 16 to 1024 that a client asks for. */
  type SizeExponent = x: nat | x <= 6

  datatype Build = NoMemory | BadPacket | Built

  /** One call of `golioth_coap_req_cb`: how building the packet ends, and what it draws. */
  datatype Draft = Draft(build: Build, token: seq<byte>, id: nat, observe: bool, szx: SizeExponent,
                         delay: Delay, ack: AckTimeout)

  /** What a user callback does before it returns `ret`. */
  datatype Reaction = Reaction(ret: int, next: Option<Next>, submits: seq<Draft>)

  /** A callback made. `nested` marks the one `get_next` makes from inside a callback on an observation. */
  datatype Call = Call(rid: nat, observe: bool, nested: bool, rsp: Rsp, ret: int)

  /** A datagram sent, in which of its request's exchanges. */
  datatype Sent = Sent(rid: nat, id: nat, block2: Option<nat>, exchange: nat)

  type User = (seq<Call>, nat, Rsp) -> Reaction

  /** `accepted` has the requests that were listed, each with whether it is an observation. */
  datatype Client = Client(connected: bool, reqs: seq<Req>, calls: seq<Call>, sends: seq<Sent>,
                           allocs: nat, accepted: map<nat, bool>, freed: seq<nat>, wakeups: nat)

  const INITIAL_CLIENT := Client(false, [], [], [], 0, map[], [], 0)

  // ----- Submission (coap_req.c:42-65, 402-576)

  function NewReq(rid: nat, d: Draft, now: int): Req
  {
    Req(rid, d.token, d.id, d.observe, d.observe, PendingInit(now + d.delay, d.ack), Exchange(0, now + d.delay, []),
        INITIAL_REPLY, BlockCtx(0, d.szx, 0), None)
  }

  /** A request that cannot be built or submitted is freed at once, without a callback. */
  function Submit(c: Client, d: Draft, now: int): Client
  {
    if d.build.NoMemory? then c
    else if d.build.BadPacket? || !c.connected then
      c.(allocs := c.allocs + 1, freed := c.freed + [c.allocs])
    else
      c.(allocs := c.allocs + 1, accepted := map[c.allocs := d.observe] + c.accepted,
         reqs := c.reqs + [NewReq(c.allocs, d, now)], wakeups := c.wakeups + 1)
  }

  function SubmitAll(c: Client, ds: seq<Draft>, now: int): Client
  {
    if ds == [] then c else Submit(SubmitAll(c, ds[..|ds| - 1], now), ds[|ds| - 1], now)
  }

  // ----- Callbacks and get_next (coap_req.c:127-177)

  /** `golioth_coap_req_next_block` for a plain request: new id, Block2 for the wanted block, fresh timer. When the option does
      not fit, the packet is left without one, with the new id and the old timer. */
  function NextBlock(r: Req, n: Next, now: int): Req
  {
    if !n.fits then r.(id := n.id, block2 := None)
    else r.(id := n.id, block2 := Some(WantedBlock(r.block)), pending := PendingInit(now + n.delay, n.ack),
            exchange := Exchange(r.exchange.number + 1, now + n.delay, []))
  }

  function WithReq(c: Client, i: nat, r: Req): Client
    requires i < |c.reqs|
  {
    c.(reqs := c.reqs[i := r])
  }

  /** Calls the user callback of request `i`, with whatever it does to the engine meanwhile. */
  function Invoke(c: Client, i: nat, rsp: Rsp, nested: bool, user: User, now: int): (Client, int)
    requires i < |c.reqs|
    decreases rsp.more
  {
    var r := c.reqs[i];
    var reaction := user(c.calls, r.rid, rsp);
    var c1 := c.(calls := c.calls + [Call(r.rid, r.observe, nested, rsp, reaction.ret)]);
    var c2 :=
      if !rsp.more || reaction.next.None? then c1
      else if r.observe then Invoke(c1, i, ErrorRsp(-ENOTSUP), true, user, now).0
      else WithReq(c1, i, NextBlock(r, reaction.next.value, now));
    (SubmitAll(c2, reaction.submits, now), reaction.ret)
  }

  /** `golioth_coap_req_cancel_and_free`. */
  function Remove(c: Client, i: nat): Client
    requires i < |c.reqs|
  {
    c.(reqs := c.reqs[..i] + c.reqs[i + 1..], freed := c.freed + [c.reqs[i].rid])
  }

  // ----- Received packets (coap_req.c:193-400)

  /** A callback and the removal of its request. */
  function Finish(c: Client, i: nat, rsp: Rsp, user: User, now: int): Client
    requires i < |c.reqs|
  {
    InvokeKeeps(c, i, rsp, false, user, now);
    Remove(Invoke(c, i, rsp, false, user, now).0, i)
  }

  /** The last payload: a plain request is done, an observation waits for its next notification. */
  function Complete(c: Client, i: nat, rsp: Rsp, user: User, now: int): Client
    requires i < |c.reqs|
  {
    InvokeKeeps(c, i, rsp, false, user, now);
    var c1 := Invoke(c, i, rsp, false, user, now).0;
    if c1.reqs[i].observe then WithReq(c1, i, c1.reqs[i].(isPending := false)) else Remove(c1, i)
  }

  /** A payload with more to come: the request lives on unless the callback refuses or it is an observation. */
  function Continue(c: Client, i: nat, rsp: Rsp, user: User, now: int): Client
    requires i < |c.reqs|
  {
    InvokeKeeps(c, i, rsp, false, user, now);
    var (c1, ret) := Invoke(c, i, rsp, false, user, now);
    if ret != 0 || c1.reqs[i].observe then Remove(c1, i) else c1
  }

  /** `golioth_coap_req_reply_handler`. */
  function HandleReply(c: Client, i: nat, rx: Packet, user: User, now: int): Client
    requires i < |c.reqs|
  {
    var r := c.reqs[i];
    if CodeToPosix(rx.code) != 0 then Finish(c, i, ErrorRsp(CodeToPosix(rx.code)), user, now)
    else match rx.block2
      case None => Complete(c, i, Rsp(rx.payload, 0, |rx.payload|, false, 0), user, now)
      case Some(option) =>
        match UpdateFromBlock(r.block, option, rx.size2)
        case None => Finish(c, i, ErrorRsp(-EBADMSG), user, now)
        case Some(ctx) =>
          if ctx.current < r.block.current then
            WithReq(c, i, r.(block := ctx.(current := r.block.current)))
          else
            var (after, off) := NextOffset(ctx, option, |rx.payload|);
            var c1 := WithReq(c, i, r.(block := after));
            if off == 0 then Complete(c1, i, Rsp(rx.payload, ctx.current, after.total, false, 0), user, now)
            else Continue(c1, i, Rsp(rx.payload, ctx.current, after.total, true,
                                     if r.observe then -EMSGSIZE else 0), user, now)
  }

  /** Whether a packet answers a request: by as much of the token as it carries, by id when it carries none. */
  predicate Matches(r: Req, rx: Packet)
  {
    if rx.token == [] then r.id == rx.id && !(r.id == 0 && r.token == [])
    else rx.token <= r.token
  }

  function FindMatch(reqs: seq<Req>, rx: Packet): (i: nat)
    ensures i <= |reqs|
    ensures i < |reqs| ==> Matches(reqs[i], rx)
    ensures forall j :: 0 <= j < i ==> !Matches(reqs[j], rx)
  {
    if reqs == [] || Matches(reqs[0], rx) then 0 else 1 + FindMatch(reqs[1..], rx)
  }

  /** `golioth_coap_req_process_rx`. */
  function ProcessRx(c: Client, rx: Packet, user: User, now: int): Client
  {
    var i := FindMatch(c.reqs, rx);
    if i == |c.reqs| then c
    else match rx.observe
      case None => HandleReply(c, i, rx, user, now)
      case Some(number) =>
        var r := c.reqs[i];
        if ReplyIsNewer(r.reply, number, now) then
          HandleReply(WithReq(c, i, r.(reply := Reply(number, now))), i, rx, user, now)
        else c
  }

  // ----- Polling (coap_req.c:669-764)

  /** A request polled at `now`, with the timer that leaves. */
  function Polled(r: Req, p: Pending, now: int): Req
  {
    r.(pending := p, exchange := r.exchange.(polls := r.exchange.polls + [now]))
  }

  /** `golioth_coap_req_poll_prepare`: the client after it, and the timeout (`None` for INT64_MAX). */
  function PollOne(c: Client, i: nat, user: User, now: int): (Client, Option<int>)
    requires i < |c.reqs|
  {
    var r := c.reqs[i];
    match Poll(r.pending, now, false)
    case GiveUp => (Finish(c, i, ErrorRsp(-ETIMEDOUT), user, now), None)
    case Wait(p, send, remaining) =>
      var c1 := WithReq(c, i, Polled(r, p, now));
      (if send then c1.(sends := c1.sends + [Sent(r.rid, r.id, r.block2, r.exchange.number)]) else c1, Some(remaining))
  }

  /** The smaller of two timeouts, `None` being INT64_MAX. */
  function MinTimeout(a: Option<int>, b: Option<int>): Option<int>
  {
    if a.None? then b else if b.None? then a else Some(Min(a.value, b.value))
  }

  predicate Settled(r: Req)
  {
    r.observe && !r.isPending
  }

  predicate GivesUp(r: Req, now: int)
  {
    !Settled(r) && Poll(r.pending, now, false).GiveUp?
  }

  /** The requests a poll pass would give up on: its measure, since new requests are never among them. */
  function GiveUps(reqs: seq<Req>, now: int): nat
  {
    if reqs == [] then 0 else GiveUps(reqs[..|reqs| - 1], now) + if GivesUp(reqs[|reqs| - 1], now) then 1 else 0
  }

  /** A poll pass from position `i` on. The next node is looked up before a request is handled, so a request
      appended while the last node is handled is not visited; one appended earlier is. */
  function PollPass(c: Client, i: nat, user: User, now: int): (Client, Option<int>)
    requires i <= |c.reqs|
    decreases GiveUps(c.reqs[i..], now), |c.reqs| - i
  {
    if i == |c.reqs| then (c, None)
    else if Settled(c.reqs[i]) then
      GiveUpsTail(c.reqs, i, now);
      PollPass(c, i + 1, user, now)
    else
      var isLast := i + 1 == |c.reqs|;
      var (c1, t) := PollOne(c, i, user, now);
      var j := if GivesUp(c.reqs[i], now) then i else i + 1;
      PollOneKeeps(c, i, user, now);
      if isLast then (c1, t)
      else
        var (c2, t2) := PollPass(c1, j, user, now);
        (c2, MinTimeout(t, t2))
  }

  // ----- Connect and disconnect (coap_req.c:766-808)

  /** `golioth_coap_reqs_cancel_all_with_reason`, called with submission already refused. */
  function CancelAll(c: Client, reason: int, user: User, now: int): Client
    requires !c.connected
    decreases |c.reqs|
  {
    if c.reqs == [] then c
    else
      InvokeKeeps(c, 0, ErrorRsp(reason), false, user, now);
      CancelAll(Finish(c, 0, ErrorRsp(reason), user, now), reason, user, now)
  }

  function OnConnect(c: Client): Client
  {
    c.(connected := true)
  }

  function OnDisconnect(c: Client, user: User, now: int): Client
  {
    CancelAll(c.(connected := false), -ESHUTDOWN, user, now)
  }

  // ----- What the parts leave alone, and why the loops end

  /** `c1` differs from `c` by calls made and requests appended, all made within a step at `now`. */
  ghost predicate Extends(c: Client, c1: Client, now: int)
  {
    && c1.connected == c.connected && c1.sends == c.sends && |c.reqs| <= |c1.reqs|
    && (forall k :: 0 <= k < |c.reqs| ==> c1.reqs[k] == c.reqs[k])
    && (forall k :: |c.reqs| <= k < |c1.reqs| ==> JustSubmitted(c1.reqs[k], now) && c1.reqs[k].rid >= c.allocs)
    && c.calls <= c1.calls && c.freed <= c1.freed && Includes(c1.accepted, c.accepted)
    && c.allocs <= c1.allocs
    && c1.wakeups - c.wakeups == |c1.reqs| - |c.reqs|
    && (!c.connected ==> |c1.reqs| == |c.reqs|)
  }

  ghost predicate Includes(m1: map<nat, bool>, m: map<nat, bool>)
  {
    forall r :: r in m ==> r in m1 && m1[r] == m[r]
  }

  ghost predicate JustSubmitted(r: Req, now: int)
  {
    exists rid, d :: r == NewReq(rid, d, now)
  }

  lemma {:induction false} SubmitAllKeeps(c: Client, ds: seq<Draft>, now: int)
    ensures Extends(c, SubmitAll(c, ds, now), now)
    ensures SubmitAll(c, ds, now).calls == c.calls
  {
    if ds != [] {
      SubmitAllKeeps(c, ds[..|ds| - 1], now);
      var before := SubmitAll(c, ds[..|ds| - 1], now);
      var d := ds[|ds| - 1];
      assert JustSubmitted(NewReq(before.allocs, d, now), now);
    }
  }

  lemma {:induction false} InvokeKeeps(c: Client, i: nat, rsp: Rsp, nested: bool, user: User, now: int)
    requires i < |c.reqs|
    ensures var c1 := Invoke(c, i, rsp, nested, user, now).0;
      && |c.reqs| <= |c1.reqs|
      && c1.reqs[i] == (var reaction := user(c.calls, c.reqs[i].rid, rsp);
                        if rsp.more && reaction.next.Some? && !c.reqs[i].observe
                        then NextBlock(c.reqs[i], reaction.next.value, now) else c.reqs[i])
      && Extends(WithReq(c, i, c1.reqs[i]), c1, now)
    decreases rsp.more
  {
    hide SubmitAll;
    var r := c.reqs[i];
    var reaction := user(c.calls, r.rid, rsp);
    var c1 := c.(calls := c.calls + [Call(r.rid, r.observe, nested, rsp, reaction.ret)]);
    if rsp.more && reaction.next.Some? && r.observe {
      InvokeKeeps(c1, i, ErrorRsp(-ENOTSUP), true, user, now);
      SubmitAllKeeps(Invoke(c1, i, ErrorRsp(-ENOTSUP), true, user, now).0, reaction.submits, now);
    } else if rsp.more && reaction.next.Some? {
      SubmitAllKeeps(WithReq(c1, i, NextBlock(r, reaction.next.value, now)), reaction.submits, now);
    } else {
      SubmitAllKeeps(c1, reaction.submits, now);
    }
  }

  lemma JustSubmittedStays(r: Req, now: int)
    requires JustSubmitted(r, now)
    ensures !GivesUp(r, now)
  {
    var rid, d :| r == NewReq(rid, d, now);
    var p := r.pending;
    ModShift(now + d.delay, -now);
    assert (p.t0 + p.timeout - now) % MOD32 == d.delay;
    if d.delay == 0 {
      var q := Cycle(p).value;
      assert (q.t0 + q.timeout - now) % MOD32 == d.ack by {
        ModShift(now, d.ack - now);
      }
      assert Remaining(q, now) == d.ack > 0;
      assert Poll(p, now, false) == Poll(q, now, true) == Wait(q, true, d.ack);
    } else {
      assert Remaining(p, now) == d.delay;
    }
  }

  lemma {:induction false} GiveUpsOfNew(reqs: seq<Req>, now: int)
    requires forall k :: 0 <= k < |reqs| ==> JustSubmitted(reqs[k], now)
    ensures GiveUps(reqs, now) == 0
  {
    if reqs != [] {
      JustSubmittedStays(reqs[|reqs| - 1], now);
      GiveUpsOfNew(reqs[..|reqs| - 1], now);
    }
  }

  lemma {:induction false} GiveUpsConcat(a: seq<Req>, b: seq<Req>, now: int)
    ensures GiveUps(a + b, now) == GiveUps(a, now) + GiveUps(b, now)
  {
    if b == [] {
      assert a + b == a;
    } else {
      assert (a + b)[..|a + b| - 1] == a + b[..|b| - 1];
      GiveUpsConcat(a, b[..|b| - 1], now);
    }
  }

  lemma GiveUpsTail(reqs: seq<Req>, i: nat, now: int)
    requires i < |reqs|
    ensures GiveUps(reqs[i..], now) == GiveUps(reqs[i + 1..], now) + if GivesUp(reqs[i], now) then 1 else 0
  {
    assert reqs[i..] == [reqs[i]] + reqs[i + 1..];
    GiveUpsConcat([reqs[i]], reqs[i + 1..], now);
    assert [reqs[i]][..0] == [];
  }

  lemma PollOneKeeps(c: Client, i: nat, user: User, now: int)
    requires i < |c.reqs| && !Settled(c.reqs[i])
    ensures var c1 := PollOne(c, i, user, now).0;
      && (if GivesUp(c.reqs[i], now)
          then i <= |c.reqs| - 1 <= |c1.reqs| && GiveUps(c1.reqs[i..], now) < GiveUps(c.reqs[i..], now)
          else |c1.reqs| == |c.reqs| && c1.reqs[i + 1..] == c.reqs[i + 1..])
      && GiveUps(c.reqs[i + 1..], now) <= GiveUps(c.reqs[i..], now)
  {
    GiveUpsTail(c.reqs, i, now);
    if GivesUp(c.reqs[i], now) { FinishKeeps(c, i, ErrorRsp(-ETIMEDOUT), user, now); }
  }

  lemma FinishKeeps(c: Client, i: nat, rsp: Rsp, user: User, now: int)
    requires i < |c.reqs|
    ensures var c1 := Finish(c, i, rsp, user, now);
      && |c.reqs| - 1 <= |c1.reqs| && GiveUps(c1.reqs[i..], now) == GiveUps(c.reqs[i + 1..], now)
  {
    InvokeKeeps(c, i, rsp, false, user, now);
    var c1 := Invoke(c, i, rsp, false, user, now).0;
    var added := c1.reqs[|c.reqs|..];
    assert Remove(c1, i).reqs[i..] == c.reqs[i + 1..] + added;
    GiveUpsConcat(c.reqs[i + 1..], added, now);
    GiveUpsOfNew(added, now);
  }
}
