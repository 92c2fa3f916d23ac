/** Block-wise reads over whole runs of the engine: a server answers from one fixed resource, the network drops,
    delays, duplicates and reorders, other requests come and go, and still the payloads handed to the
    callback are the resource from its first byte on, contiguous and without repetition. */
module Blockwise {
  import opened Common
  import opened ObserveOrder
  import opened Engine
  import opened EngineInvariants
  import opened QuietSteps

  // ----- The server and the network

  /** The fixed resource, and whether the server sends it whole, without Block2, when no block is asked for. */
  datatype Server = Server(resource: seq<byte>, whole: bool)

  /** A Block2 answer (sections 2.2 to 2.4 of RFC 7959): the block at the offset asked for, of at most the size asked
      for, full unless it is the last, with or without the total size. */
  ghost predicate BlockAnswer(server: Server, sent: Sent, rx: Packet, option: nat)
  {
    var r := server.resource;
    var off := OffsetOf(option);
    && rx.block2 == Some(option) && Szx(option) <= 6 && off <= |r|
    && off == (if sent.block2.Some? then OffsetOf(sent.block2.value) else 0)
    && (sent.block2.Some? ==> Szx(option) <= Szx(sent.block2.value))
    && rx.payload == r[off..Min(off + BlockSize(Szx(option)), |r|)]
    && (More(option) <==> off + BlockSize(Szx(option)) < |r|)
    && (rx.size2 == 0 || rx.size2 == |r|)
  }

  /** What the server may answer to a datagram it received: an error, or the resource. */
  ghost predicate Answers(server: Server, sent: Sent, rx: Packet)
  {
    || CodeToPosix(rx.code) != 0
    || (sent.block2.None? && server.whole && rx.block2 == None && rx.payload == server.resource)
    || (!(sent.block2.None? && server.whole) && exists option :: BlockAnswer(server, sent, rx, option))
  }

  /** `rid` is a plain read; a packet that reaches it answers some datagram sent for it earlier, any number of times and
      in any order; `get_next` is called for it only if a callback was given it. */
  ghost predicate Allowed(c: Client, e: Event, rid: nat, server: Server)
  {
    && (Lookup(c.reqs, rid).Some? ==> !Lookup(c.reqs, rid).value.observe)
    && match e.step
       case RxStep(rx) =>
         var i := FindMatch(c.reqs, rx);
         i < |c.reqs| && c.reqs[i].rid == rid ==>
           exists k :: 0 <= k < |c.sends| && c.sends[k].rid == rid && Answers(server, c.sends[k], rx)
       case NextStep(r, _) =>
         r == rid ==> exists k :: 0 <= k < |c.calls| && Payload(c.calls[k], rid) && c.calls[k].rsp.more
       case _ => true
  }

  ghost predicate AllowedRun(events: seq<Event>, user: User, rid: nat, server: Server)
  {
    forall n :: 0 <= n < |events| ==> Allowed(Run(events[..n], user), events[n], rid, server)
  }

  // ----- What the callback was given

  /** All payloads handed over for `rid`, in the order of the callbacks. */
  function Delivered(calls: seq<Call>, rid: nat): seq<byte>
  {
    if calls == [] then []
    else
      var before := Delivered(calls[..|calls| - 1], rid);
      var call := calls[|calls| - 1];
      if Payload(call, rid) then before + call.rsp.data else before
  }

  /** Each payload was announced at the offset where the ones before it end. */
  ghost predicate Contiguous(calls: seq<Call>, rid: nat)
  {
    forall k :: 0 <= k < |calls| && Payload(calls[k], rid) ==> calls[k].rsp.off == |Delivered(calls[..k], rid)|
  }

  /** A payload came without `get_next`. */
  ghost predicate Finished(calls: seq<Call>, rid: nat)
  {
    exists k :: 0 <= k < |calls| && Payload(calls[k], rid) && !calls[k].rsp.more
  }

  ghost predicate TotalsTrue(calls: seq<Call>, rid: nat, total: nat)
  {
    forall k :: 0 <= k < |calls| && Payload(calls[k], rid) ==> calls[k].rsp.total == 0 || calls[k].rsp.total == total
  }

  /** Safety of what was handed over so far. */
  ghost predicate Safe(calls: seq<Call>, rid: nat, resource: seq<byte>)
  {
    && Contiguous(calls, rid)
    && Delivered(calls, rid) <= resource
    && (Finished(calls, rid) ==> Delivered(calls, rid) == resource)
    && TotalsTrue(calls, rid, |resource|)
  }

  // ----- The invariant of a transfer

  ghost predicate Aligned(offset: nat, szx: nat)
  {
    offset % BlockSize(szx) == 0
  }

  ghost predicate OptionUpTo(option: Option<nat>, current: nat, server: Server)
  {
    option.Some? ==> OffsetOf(option.value) <= current && !server.whole
  }

  /** The request's block context against what was delivered. */
  ghost predicate Progressing(r: Req, delivered: nat, server: Server)
  {
    && r.block.current == delivered
    && Aligned(r.block.current, r.block.szx) && r.block.szx <= 6
    && (r.block.total == 0 || r.block.total == |server.resource|)
    && (r.block.current > 0 ==> !server.whole)
    && OptionUpTo(r.block2, r.block.current, server)
  }

  ghost predicate TransferInv(c: Client, rid: nat, server: Server)
  {
    var delivered := |Delivered(c.calls, rid)|;
    && Safe(c.calls, rid, server.resource)
    && (Lookup(c.reqs, rid).Some? ==> Progressing(Lookup(c.reqs, rid).value, delivered, server))
    && (forall k :: 0 <= k < |c.sends| && c.sends[k].rid == rid ==> OptionUpTo(c.sends[k].block2, delivered, server))
    && (forall k :: 0 <= k < |c.sends| ==> c.sends[k].rid < c.allocs)
    && (forall k :: 0 <= k < |c.calls| && Payload(c.calls[k], rid) && c.calls[k].rsp.more ==> !server.whole)
  }

  // ----- The invariant through quiet steps

  lemma {:induction false} DeliveredGrows(calls: seq<Call>, calls1: seq<Call>, rid: nat)
    requires calls <= calls1 && forall k :: |calls| <= k < |calls1| ==> !Payload(calls1[k], rid)
    ensures Delivered(calls1, rid) == Delivered(calls, rid)
    decreases |calls1|
  {
    if |calls| < |calls1| {
      DeliveredGrows(calls, calls1[..|calls1| - 1], rid);
    } else {
      assert calls1 == calls;
    }
  }

  lemma SafeGrows(calls: seq<Call>, calls1: seq<Call>, rid: nat, resource: seq<byte>)
    requires calls <= calls1 && forall k :: |calls| <= k < |calls1| ==> !Payload(calls1[k], rid)
    requires Safe(calls, rid, resource)
    ensures Safe(calls1, rid, resource) && Delivered(calls1, rid) == Delivered(calls, rid)
  {
    DeliveredGrows(calls, calls1, rid);
    forall k | 0 <= k < |calls1| && Payload(calls1[k], rid)
      ensures calls[k] == calls1[k] && calls1[..k] == calls[..k]
    {
    }
  }

  lemma QuietKeepsTransfer(c: Client, c1: Client, rid: nat, server: Server)
    requires Inv(c) && TransferInv(c, rid, server) && Quiet(c, c1, rid)
    ensures TransferInv(c1, rid, server)
  {
    SafeGrows(c.calls, c1.calls, rid, server.resource);
    var before := Lookup(c.reqs, rid);
    var after := Lookup(c1.reqs, rid);
    if after.Some? && before.None? {
      OwnedMeans(c);
      forall k | 0 <= k < |c.calls|
        ensures c.calls[k].rid != rid
      {
        assert c.calls[k].rid in c.accepted;
      }
      NothingDelivered(c.calls, rid);
      assert Aligned(0, after.value.block.szx);
    }
    forall k | 0 <= k < |c1.sends| && c1.sends[k].rid == rid
      ensures OptionUpTo(c1.sends[k].block2, |Delivered(c1.calls, rid)|, server)
    {
      if k < |c.sends| { assert c1.sends[k] == c.sends[k]; }
    }
    forall k | 0 <= k < |c1.calls| && Payload(c1.calls[k], rid) && c1.calls[k].rsp.more
      ensures !server.whole
    {
      assert c1.calls[k] == c.calls[k];
    }
  }

  lemma {:induction false} NothingDelivered(calls: seq<Call>, rid: nat)
    requires forall k :: 0 <= k < |calls| ==> calls[k].rid != rid
    ensures Delivered(calls, rid) == []
  {
    if calls != [] { NothingDelivered(calls[..|calls| - 1], rid); }
  }

  // ----- Block arithmetic

  lemma OptionParts(num: nat, more: bool, szx: nat)
    requires szx < 8
    ensures var o := BlockOption(num, more, szx); Num(o) == num && More(o) == more && Szx(o) == szx
  {
  }

  lemma {:induction false} AlignedDown(x: nat, small: nat, big: nat)
    requires small <= big && Aligned(x, big)
    ensures Aligned(x, small)
    decreases big
  {
    if small < big {
      var m := BlockSize(big - 1);
      var q := Quotient(x, 2 * m);
      assert BlockSize(big) == 2 * m;
      assert x == q * (2 * m) by { DivideExactly(x, 2 * m); }
      assert x == (2 * q) * m;
      MultipleIsAligned(2 * q, m);
      AlignedDown(x, small, big - 1);
    }
  }

  lemma DivideExactly(x: nat, m: nat)
    requires m > 0 && x % m == 0
    ensures x == (x / m) * m && x == Quotient(x, m) * m
  {
    var q := Quotient(x, m);
    assert x / m == q;
  }

  lemma MultipleIsAligned(q: nat, m: nat)
    requires m > 0
    ensures (q * m) % m == 0
  {
    QuotientUnique(q, Quotient(q * m, m), m);
  }

  lemma QuotientUnique(p: nat, q: nat, m: nat)
    requires q * m <= p * m < q * m + m
    ensures p == q
  {
    MultiplyLess(p, q, m);
    MultiplyLess(q, p, m);
  }

  lemma MultiplyLess(a: nat, b: nat, m: nat)
    ensures a < b ==> a * m + m <= b * m
  {
    if a < b {
      assert b * m == (b - 1) * m + m;
      MultiplyLess(a, b - 1, m);
    }
  }

  lemma SumAligned(x: nat, y: nat, szx: nat)
    requires Aligned(x, szx) && Aligned(y, szx)
    ensures Aligned(x + y, szx)
  {
    var m := BlockSize(szx);
    DivideExactly(x, m);
    DivideExactly(y, m);
    var a, b := Quotient(x, m), Quotient(y, m);
    assert x + y == (a + b) * m;
    MultipleIsAligned(a + b, m);
  }

  /** The Block2 option of a request asks for exactly the byte wanted next. */
  lemma WantedBlockOffset(ctx: BlockCtx)
    requires Aligned(ctx.current, ctx.szx) && ctx.szx < 8
    ensures OffsetOf(WantedBlock(ctx)) == ctx.current && Szx(WantedBlock(ctx)) == ctx.szx
  {
    DivideExactly(ctx.current, BlockSize(ctx.szx));
    OptionParts(Quotient(ctx.current, BlockSize(ctx.szx)), false, ctx.szx);
  }

  lemma OffsetAligned(option: nat)
    ensures Aligned(OffsetOf(option), Szx(option))
  {
    MultipleIsAligned(Num(option), BlockSize(Szx(option)));
  }

  // ----- The step that hands over a payload

  lemma NotFinishedWhileLive(c: Client, i: nat, rid: nat)
    requires Inv(c) && i < |c.reqs| && c.reqs[i].rid == rid && !c.reqs[i].observe
    ensures !Finished(c.calls, rid)
  {
    TrackMeans(c.calls, rid);
  }

  /** A payload that starts where the last one ended extends a safe history. */
  lemma SafeStep(calls: seq<Call>, call: Call, rid: nat, resource: seq<byte>)
    requires Safe(calls, rid, resource) && !Finished(calls, rid) && Payload(call, rid)
    requires var before := |Delivered(calls, rid)|;
      && call.rsp.off == before && before + |call.rsp.data| <= |resource|
      && call.rsp.data == resource[before..before + |call.rsp.data|]
      && (!call.rsp.more ==> before + |call.rsp.data| == |resource|)
      && (call.rsp.total == 0 || call.rsp.total == |resource|)
    ensures Safe(calls + [call], rid, resource)
    ensures Delivered(calls + [call], rid) == Delivered(calls, rid) + call.rsp.data
  {
    var all := calls + [call];
    assert all[..|all| - 1] == calls;
    forall k | 0 <= k < |calls|
      ensures all[k] == calls[k] && all[..k] == calls[..k]
    {
    }
  }

  lemma NextBlockParts(r: Req, n: Next, now: int)
    ensures var r1 := NextBlock(r, n, now);
      && r1.rid == r.rid && r1.observe == r.observe && r1.block == r.block
      && (r1.block2 == None || r1.block2 == Some(WantedBlock(r.block)))
  {
  }

  /** A callback that gets a payload: one call recorded, and the request at most replaced by its next block. */
  lemma {:induction false} InvokePayload(c: Client, i: nat, rsp: Rsp, user: User, now: int, rid: nat)
    requires Owned(c) && i < |c.reqs| && c.reqs[i].rid == rid && !c.reqs[i].observe
    ensures var (c1, ret) := Invoke(c, i, rsp, false, user, now);
      && c1.calls == c.calls + [Call(rid, false, false, rsp, ret)] && c1.sends == c.sends && c1.allocs >= c.allocs
      && i < |c1.reqs| && c1.reqs[i].rid == rid && !c1.reqs[i].observe && Owned(c1)
      && c1.reqs[i].block == c.reqs[i].block
      && (c1.reqs[i].block2 == c.reqs[i].block2 || c1.reqs[i].block2 == None ||
          (rsp.more && c1.reqs[i].block2 == Some(WantedBlock(c.reqs[i].block))))
  {
    hide SubmitAll, WantedBlock, SameTransfer, NextBlock;
    var r := c.reqs[i];
    var reaction := user(c.calls, rid, rsp);
    var c1 := c.(calls := c.calls + [Call(rid, false, false, rsp, reaction.ret)]);
    var next := rsp.more && reaction.next.Some?;
    var c2 := if next then WithReq(c1, i, NextBlock(r, reaction.next.value, now)) else c1;
    if next {
      NextBlockParts(r, reaction.next.value, now);
      WithReqQuiet(c1, i, NextBlock(r, reaction.next.value, now), rid + 1);
    }
    InvokeKeeps(c, i, rsp, false, user, now);
    SubmitAllKeeps(c2, reaction.submits, now);
    SubmitAllQuiet(c2, reaction.submits, now, rid);
  }

  /** What a payload handed over next must be. */
  ghost predicate NextPayload(rsp: Rsp, before: nat, server: Server)
  {
    && rsp.err == 0 && rsp.off == before && before + |rsp.data| <= |server.resource|
    && rsp.data == server.resource[before..before + |rsp.data|]
    && (!rsp.more ==> before + |rsp.data| == |server.resource|)
    && (rsp.total == 0 || rsp.total == |server.resource|)
    && (rsp.more ==> !server.whole)
  }

  /** TransferInv but for the request itself. */
  ghost predicate HistoryInv(c: Client, rid: nat, server: Server)
  {
    var delivered := |Delivered(c.calls, rid)|;
    && Safe(c.calls, rid, server.resource)
    && (forall k :: 0 <= k < |c.sends| && c.sends[k].rid == rid ==> OptionUpTo(c.sends[k].block2, delivered, server))
    && (forall k :: 0 <= k < |c.sends| ==> c.sends[k].rid < c.allocs)
    && (forall k :: 0 <= k < |c.calls| && Payload(c.calls[k], rid) && c.calls[k].rsp.more ==> !server.whole)
  }

  lemma HistoryStep(c: Client, c1: Client, call: Call, rid: nat, server: Server)
    requires HistoryInv(c, rid, server) && !Finished(c.calls, rid) && Payload(call, rid)
    requires NextPayload(call.rsp, |Delivered(c.calls, rid)|, server)
    requires c1.calls == c.calls + [call] && c1.sends == c.sends && c1.allocs >= c.allocs
    ensures HistoryInv(c1, rid, server)
    ensures |Delivered(c1.calls, rid)| == |Delivered(c.calls, rid)| + |call.rsp.data|
  {
    SafeStep(c.calls, call, rid, server.resource);
    forall k | 0 <= k < |c1.calls| && Payload(c1.calls[k], rid) && c1.calls[k].rsp.more
      ensures !server.whole
    {
      if k < |c.calls| { assert c1.calls[k] == c.calls[k]; }
    }
  }

  lemma DeliverKeeps(c: Client, i: nat, rsp: Rsp, user: User, now: int, rid: nat, server: Server, c1: Client)
    requires Inv(c) && i < |c.reqs| && c.reqs[i].rid == rid && !c.reqs[i].observe
    requires HistoryInv(c, rid, server) && NextPayload(rsp, |Delivered(c.calls, rid)|, server)
    requires rsp.more ==> Progressing(c.reqs[i], rsp.off + |rsp.data|, server)
    requires c1 == if rsp.more then Continue(c, i, rsp, user, now) else Complete(c, i, rsp, user, now)
    ensures TransferInv(c1, rid, server)
  {
    hide Invoke, Finished, WantedBlock, ListedOpen, FreedDone, CallsKnown, Below, Safe;
    NotFinishedWhileLive(c, i, rid);
    InvokeKeeps(c, i, rsp, false, user, now);
    InvokePayload(c, i, rsp, user, now, rid);
    var (c0, ret) := Invoke(c, i, rsp, false, user, now);
    HistoryStep(c, c0, Call(rid, false, false, rsp, ret), rid, server);
    LookupMember(c0, i);
    RemoveQuiet(c0, i, rid);
    if rsp.more {
      WantedBlockOffset(c.reqs[i].block);
      assert Progressing(c0.reqs[i], rsp.off + |rsp.data|, server);
    }
    assert HistoryInv(c1, rid, server);
  }

  /** A packet for the transfer that answers one of its datagrams keeps the invariant. */
  lemma OwnReplyKeeps(c: Client, i: nat, rx: Packet, user: User, now: int, rid: nat, server: Server, k: nat)
    requires Inv(c) && TransferInv(c, rid, server)
    requires i < |c.reqs| && c.reqs[i].rid == rid && !c.reqs[i].observe
    requires k < |c.sends| && c.sends[k].rid == rid && Answers(server, c.sends[k], rx)
    ensures TransferInv(HandleReply(c, i, rx, user, now), rid, server)
  {
    LookupMember(c, i);
    if CodeToPosix(rx.code) != 0 {
      FinishQuiet(c, i, ErrorRsp(CodeToPosix(rx.code)), user, now, rid);
      QuietKeepsTransfer(c, HandleReply(c, i, rx, user, now), rid, server);
    } else if rx.block2.None? {
      var rsp := Rsp(rx.payload, 0, |rx.payload|, false, 0);
      assert server.whole && rx.payload == server.resource;
      assert Delivered(c.calls, rid) == [];
      DeliverKeeps(c, i, rsp, user, now, rid, server, Complete(c, i, rsp, user, now));
    } else {
      BlockReplyKeeps(c, i, rx, user, now, rid, server, k);
    }
  }

  lemma BlockReplyKeeps(c: Client, i: nat, rx: Packet, user: User, now: int, rid: nat, server: Server, k: nat)
    requires Inv(c) && TransferInv(c, rid, server)
    requires i < |c.reqs| && c.reqs[i].rid == rid && !c.reqs[i].observe
    requires CodeToPosix(rx.code) == 0 && rx.block2.Some?
    requires k < |c.sends| && c.sends[k].rid == rid && BlockAnswer(server, c.sends[k], rx, rx.block2.value)
    requires !(c.sends[k].block2.None? && server.whole)
    ensures TransferInv(HandleReply(c, i, rx, user, now), rid, server)
  {
    LookupMember(c, i);
    var option := rx.block2.value;
    var r := c.reqs[i];
    match UpdateFromBlock(r.block, option, rx.size2)
    case None =>
      FinishQuiet(c, i, ErrorRsp(-EBADMSG), user, now, rid);
      QuietKeepsTransfer(c, HandleReply(c, i, rx, user, now), rid, server);
    case Some(ctx) =>
      OffsetAligned(option);
      AlignedDown(OffsetOf(option), ctx.szx, Szx(option));
      AlignedDown(r.block.current, ctx.szx, r.block.szx);
      if ctx.current < r.block.current {
        StaleBlockKeeps(c, i, ctx, rid, server);
      } else {
        FreshBlockKeeps(c, i, rx, ctx, user, now, rid, server);
      }
  }

  lemma StaleBlockKeeps(c: Client, i: nat, ctx: BlockCtx, rid: nat, server: Server)
    requires Inv(c) && TransferInv(c, rid, server) && i < |c.reqs| && c.reqs[i].rid == rid
    requires ctx.szx <= 6 && Aligned(c.reqs[i].block.current, ctx.szx)
    requires ctx.total == 0 || ctx.total == |server.resource|
    ensures var r := c.reqs[i];
      TransferInv(WithReq(c, i, r.(block := ctx.(current := r.block.current))), rid, server)
  {
    LookupMember(c, i);
    var r1 := c.reqs[i].(block := ctx.(current := c.reqs[i].block.current));
    WithReqInv(c, i, r1, {});
    LookupMember(WithReq(c, i, r1), i);
  }

  lemma FreshBlockKeeps(c: Client, i: nat, rx: Packet, ctx: BlockCtx, user: User, now: int, rid: nat, server: Server)
    requires Inv(c) && TransferInv(c, rid, server) && !server.whole
    requires i < |c.reqs| && c.reqs[i].rid == rid && !c.reqs[i].observe
    requires CodeToPosix(rx.code) == 0 && rx.block2.Some?
    requires Some(ctx) == UpdateFromBlock(c.reqs[i].block, rx.block2.value, rx.size2)
    requires ctx.current == c.reqs[i].block.current <= |server.resource| && Szx(rx.block2.value) <= 6
    requires Aligned(ctx.current, ctx.szx)
    requires var size := BlockSize(Szx(rx.block2.value));
      && rx.payload == server.resource[ctx.current..Min(ctx.current + size, |server.resource|)]
      && (More(rx.block2.value) <==> ctx.current + size < |server.resource|)
    requires rx.size2 == 0 || rx.size2 == |server.resource|
    ensures TransferInv(HandleReply(c, i, rx, user, now), rid, server)
  {
    hide Continue, Complete, Delivered;
    LookupMember(c, i);
    var option := rx.block2.value;
    var r := c.reqs[i];
    var (after, off) := NextOffset(ctx, option, |rx.payload|);
    assert after == ctx.(current := ctx.current + |rx.payload|);
    var r1 := r.(block := after);
    var c1 := WithReq(c, i, r1);
    WithReqInv(c, i, r1, {});
    var rsp := Rsp(rx.payload, ctx.current, after.total, More(option), 0);
    if More(option) {
      MultipleIsAligned(1, BlockSize(Szx(option)));
      AlignedDown(BlockSize(Szx(option)), ctx.szx, Szx(option));
      SumAligned(ctx.current, |rx.payload|, ctx.szx);
      DeliverKeeps(c1, i, rsp, user, now, rid, server, Continue(c1, i, rsp, user, now));
    } else {
      DeliverKeeps(c1, i, rsp, user, now, rid, server, Complete(c1, i, rsp, user, now));
    }
  }

  // ----- Repeated answers

  /** An answer whose block was handed over before is ignored if and only if its blocks are no larger than those the client now
      asks for; larger ones end the read with an error. */
  lemma RepeatedAnswer(c: Client, i: nat, rx: Packet, user: User, now: int, rid: nat, server: Server, sent: Sent)
    requires Inv(c) && TransferInv(c, rid, server) && i < |c.reqs| && c.reqs[i].rid == rid
    requires CodeToPosix(rx.code) == 0 && rx.block2.Some? && BlockAnswer(server, sent, rx, rx.block2.value)
    requires OffsetOf(rx.block2.value) < c.reqs[i].block.current
    ensures var c1 := HandleReply(c, i, rx, user, now);
      if Szx(rx.block2.value) <= c.reqs[i].block.szx
      then
        && c1.calls == c.calls && Lookup(c1.reqs, rid).Some?
        && Lookup(c1.reqs, rid).value.block.current == c.reqs[i].block.current
      else
        && Lookup(c1.reqs, rid) == None
        && |c.calls| < |c1.calls| && c1.calls[|c.calls|].rid == rid && c1.calls[|c.calls|].rsp == ErrorRsp(-74)
  {
    hide Invoke, Safe;
    LookupMember(c, i);
    var option := rx.block2.value;
    var r := c.reqs[i];
    match UpdateFromBlock(r.block, option, rx.size2)
    case None =>
      FirstCall(c, i, ErrorRsp(-EBADMSG), user, now);
      InvokeKeeps(c, i, ErrorRsp(-EBADMSG), false, user, now);
      InvokeQuiet(c, i, ErrorRsp(-EBADMSG), false, user, now, rid);
      RemoveQuiet(Invoke(c, i, ErrorRsp(-EBADMSG), false, user, now).0, i, rid);
    case Some(ctx) =>
      var r1 := r.(block := ctx.(current := r.block.current));
      WithReqInv(c, i, r1, {});
      LookupMember(WithReq(c, i, r1), i);
  }

  /** A client that asks for blocks of 64 bytes accepts a first block of 1024, and refuses the same packet when it comes again. */
  lemma RepeatedFirstBlock()
    ensures var option := BlockOption(0, true, 6);
      var first := UpdateFromBlock(BlockCtx(0, 2, 0), option, 0);
      && first == Some(BlockCtx(0, 2, 0))
      && UpdateFromBlock(NextOffset(first.value, option, 1024).0, option, 0) == None
  {
    OptionParts(0, true, 6);
  }

  // ----- Runs

  lemma NextStepKeeps(c: Client, e: Event, user: User, rid: nat, server: Server)
    requires Inv(c) && TransferInv(c, rid, server) && Allowed(c, e, rid, server) && e.step.NextStep?
    ensures TransferInv(Apply(c, e, user), rid, server)
  {
    hide ListedOpen, FreedDone, CallsKnown, Below, Owned, Safe;
    var i := IndexOf(c.reqs, e.step.rid);
    if i < |c.reqs| && !c.reqs[i].observe {
      var r1 := NextBlock(c.reqs[i], e.step.next, e.now);
      if e.step.rid != rid {
        WithReqQuiet(c, i, r1, rid);
        QuietKeepsTransfer(c, WithReq(c, i, r1), rid, server);
      } else {
        LookupMember(c, i);
        WithReqInv(c, i, r1, {});
        LookupMember(WithReq(c, i, r1), i);
        WantedBlockOffset(c.reqs[i].block);
        TrackMeans(c.calls, rid);
      }
    }
  }

  lemma StepKeeps(c: Client, e: Event, user: User, rid: nat, server: Server)
    requires Inv(c) && TransferInv(c, rid, server) && Allowed(c, e, rid, server)
    ensures TransferInv(Apply(c, e, user), rid, server)
  {
    match e.step
    case SubmitStep(d) =>
      SubmitQuiet(c, d, e.now, rid);
      QuietKeepsTransfer(c, Apply(c, e, user), rid, server);
    case PollStep =>
      PollPassQuiet(c, 0, user, e.now, rid);
      QuietKeepsTransfer(c, Apply(c, e, user), rid, server);
    case RxStep(rx) => RxKeeps(c, e, user, rid, server);
    case NextStep(_, _) => NextStepKeeps(c, e, user, rid, server);
    case ConnectStep => QuietKeepsTransfer(c, Apply(c, e, user), rid, server);
    case DisconnectStep =>
      var c1 := c.(connected := false);
      ConnectedInv(c, false);
      CancelAllQuiet(c1, -ESHUTDOWN, user, e.now, rid);
      QuietKeepsTransfer(c1, Apply(c, e, user), rid, server);
  }

  lemma RxKeeps(c: Client, e: Event, user: User, rid: nat, server: Server)
    requires Inv(c) && TransferInv(c, rid, server) && Allowed(c, e, rid, server) && e.step.RxStep?
    ensures TransferInv(Apply(c, e, user), rid, server)
  {
    hide HandleReply, TransferInv;
    var rx := e.step.rx;
    var i := FindMatch(c.reqs, rx);
    if i < |c.reqs| {
      LookupMember(c, i);
      var r := c.reqs[i];
      if rx.observe.Some? {
        var r1 := r.(reply := Reply(rx.observe.value, e.now));
        WithReqInv(c, i, r1, {});
        NoteArrivalKeeps(c, i, r1, rid, server);
        AnyReplyKeeps(WithReq(c, i, r1), i, rx, user, e.now, rid, server);
      } else {
        AnyReplyKeeps(c, i, rx, user, e.now, rid, server);
      }
    }
  }

  lemma NoteArrivalKeeps(c: Client, i: nat, r1: Req, rid: nat, server: Server)
    requires Inv(c) && TransferInv(c, rid, server) && i < |c.reqs| && r1 == c.reqs[i].(reply := r1.reply)
    ensures TransferInv(WithReq(c, i, r1), rid, server)
  {
    WithReqInv(c, i, r1, {});
    LookupMember(c, i);
    LookupMember(WithReq(c, i, r1), i);
    SameRidsLookup(c.reqs, WithReq(c, i, r1).reqs, rid);
  }

  lemma AnyReplyKeeps(c: Client, i: nat, rx: Packet, user: User, now: int, rid: nat, server: Server)
    requires Inv(c) && TransferInv(c, rid, server) && i < |c.reqs|
    requires c.reqs[i].rid == rid ==>
      && !c.reqs[i].observe
      && exists k :: 0 <= k < |c.sends| && c.sends[k].rid == rid && Answers(server, c.sends[k], rx)
    ensures TransferInv(HandleReply(c, i, rx, user, now), rid, server)
  {
    if c.reqs[i].rid == rid {
      var k :| 0 <= k < |c.sends| && c.sends[k].rid == rid && Answers(server, c.sends[k], rx);
      OwnReplyKeeps(c, i, rx, user, now, rid, server, k);
    } else {
      OtherReplyQuiet(c, i, rx, user, now, rid);
      QuietKeepsTransfer(c, HandleReply(c, i, rx, user, now), rid, server);
    }
  }

  lemma {:induction false} TransferOverRuns(events: seq<Event>, user: User, rid: nat, server: Server)
    requires AllowedRun(events, user, rid, server)
    ensures TransferInv(Run(events, user), rid, server)
  {
    if events != [] {
      var n := |events| - 1;
      var init := events[..n];
      forall m | 0 <= m < |init|
        ensures Allowed(Run(init[..m], user), init[m], rid, server)
      {
        assert init[..m] == events[..m];
      }
      TransferOverRuns(init, user, rid, server);
      RunInv(init, user);
      StepKeeps(Run(init, user), events[n], user, rid, server);
    }
  }

  /** In every allowed run the payloads handed over for `rid` start at offset 0, follow each other without gap or
      repetition, are a prefix of the resource, and once one comes without `get_next` are all of it. */
  lemma BlockwiseSafety(events: seq<Event>, user: User, rid: nat, server: Server)
    requires AllowedRun(events, user, rid, server)
    ensures var calls := Run(events, user).calls;
      && Contiguous(calls, rid)
      && Delivered(calls, rid) <= server.resource
      && (Finished(calls, rid) ==> Delivered(calls, rid) == server.resource)
  {
    TransferOverRuns(events, user, rid, server);
  }
}
