/** Which engine steps leave a given request alone: everything but a packet that reaches it and `get_next`. */
module QuietSteps {
  import opened Common
  import opened Backoff
  import opened ObserveOrder
  import opened Engine
  import opened EngineInvariants

  function Lookup(reqs: seq<Req>, rid: nat): Option<Req>
  {
    var i := IndexOf(reqs, rid);
    if i < |reqs| then Some(reqs[i]) else None
  }

  /** A callback for `rid` that carries a payload. */
  predicate Payload(call: Call, rid: nat)
  {
    call.rid == rid && !call.nested && call.rsp.err == 0
  }

  // ----- Steps that hand `rid` nothing but errors

  /** All but the retransmission timer and the message id. */
  ghost predicate SameTransfer(r: Req, r1: Req)
  {
    && r1.rid == r.rid && r1.observe == r.observe && r1.isPending == r.isPending
    && r1.block == r.block && r1.block2 == r.block2 && r1.reply == r.reply
  }

  ghost predicate Newborn(r: Req)
  {
    && r.block.current == 0 && r.block.total == 0 && r.block.szx <= 6 && r.block2 == None
    && r.reply == INITIAL_REPLY
  }

  /** Nothing but errors is handed to `rid`; what is sent for it repeats its present packet, and nothing is sent for
      an observation that has been answered; the request is as it was, or gone, or new. */
  ghost predicate Quiet(c: Client, c1: Client, rid: nat)
  {
    var before := Lookup(c.reqs, rid);
    var after := Lookup(c1.reqs, rid);
    && c.calls <= c1.calls && c.sends <= c1.sends && c.allocs <= c1.allocs
    && (forall k :: |c.calls| <= k < |c1.calls| ==> !Payload(c1.calls[k], rid))
    && (forall k :: |c.sends| <= k < |c1.sends| && c1.sends[k].rid == rid ==>
          if before.Some? then c1.sends[k].block2 == before.value.block2 && !Settled(before.value)
          else c1.sends[k].block2 == None && rid >= c.allocs)
    && (forall k :: |c.sends| <= k < |c1.sends| ==> c1.sends[k].rid < c1.allocs)
    && (after.Some? ==>
          if before.Some? then SameTransfer(before.value, after.value) else rid >= c.allocs && Newborn(after.value))
  }

  lemma QuietTransitive(a: Client, b: Client, c: Client, rid: nat)
    requires Owned(a) && Quiet(a, b, rid) && Quiet(b, c, rid)
    ensures Quiet(a, c, rid)
  {
    OwnedMeans(a);
    forall k | |a.calls| <= k < |c.calls|
      ensures !Payload(c.calls[k], rid)
    {
      if k < |b.calls| { assert c.calls[k] == b.calls[k]; }
    }
    forall k | |a.sends| <= k < |c.sends|
      ensures k < |b.sends| ==> c.sends[k] == b.sends[k]
    {
    }
  }

  lemma {:induction false} LookupIs(reqs: seq<Req>, rid: nat, i: nat)
    requires i < |reqs| && reqs[i].rid == rid
    requires forall j :: 0 <= j < i ==> reqs[j].rid != rid
    ensures Lookup(reqs, rid) == Some(reqs[i])
  {
    var j := IndexOf(reqs, rid);
    assert j <= i;
  }

  lemma LookupMember(c: Client, i: nat)
    requires Owned(c) && i < |c.reqs|
    ensures Lookup(c.reqs, c.reqs[i].rid) == Some(c.reqs[i])
  {
    OwnedMeans(c);
    LookupIs(c.reqs, c.reqs[i].rid, i);
  }

  lemma SubmitQuiet(c: Client, d: Draft, now: int, rid: nat)
    requires Owned(c)
    ensures Quiet(c, Submit(c, d, now), rid) && Owned(Submit(c, d, now))
  {
    var c1 := Submit(c, d, now);
    SubmitOwned(c, d, now);
    if d.build == Built && c.connected {
      OwnedMeans(c);
      AppendLookup(c.reqs, NewReq(c.allocs, d, now), rid);
    }
  }

  lemma AppendLookup(reqs: seq<Req>, r: Req, rid: nat)
    ensures Lookup(reqs + [r], rid) ==
      if Lookup(reqs, rid).Some? then Lookup(reqs, rid) else if r.rid == rid then Some(r) else None
  {
    var all := reqs + [r];
    var i := IndexOf(reqs, rid);
    if i < |reqs| {
      LookupIs(all, rid, i);
    } else if r.rid == rid {
      LookupIs(all, rid, |reqs|);
    }
  }

  lemma {:induction false} SubmitAllQuiet(c: Client, ds: seq<Draft>, now: int, rid: nat)
    requires Owned(c)
    ensures Quiet(c, SubmitAll(c, ds, now), rid) && Owned(SubmitAll(c, ds, now))
  {
    if ds != [] {
      var init := ds[..|ds| - 1];
      SubmitAllQuiet(c, init, now, rid);
      SubmitQuiet(SubmitAll(c, init, now), ds[|ds| - 1], now, rid);
      QuietTransitive(c, SubmitAll(c, init, now), SubmitAll(c, ds, now), rid);
    }
  }

  /** Replacing request `i` is quiet when it is another request or keeps the transfer as it is. */
  lemma WithReqQuiet(c: Client, i: nat, r: Req, rid: nat)
    requires Owned(c) && i < |c.reqs| && r.rid == c.reqs[i].rid
    requires r.rid == rid ==> SameTransfer(c.reqs[i], r)
    ensures Quiet(c, WithReq(c, i, r), rid) && Owned(WithReq(c, i, r))
    ensures Lookup(WithReq(c, i, r).reqs, rid) == if r.rid == rid then Some(r) else Lookup(c.reqs, rid)
  {
    var c1 := WithReq(c, i, r);
    assert Rids(c1.reqs) == Rids(c.reqs);
    SameRidsLookup(c.reqs, c1.reqs, rid);
    LookupMember(c1, i);
    LookupMember(c, i);
  }

  lemma SameRidsLookup(a: seq<Req>, b: seq<Req>, rid: nat)
    requires Rids(a) == Rids(b)
    ensures IndexOf(a, rid) == IndexOf(b, rid)
  {
    var i := IndexOf(a, rid);
    var j := IndexOf(b, rid);
    assert i < |a| ==> Rids(b)[i] == rid;
    assert j < |b| ==> Rids(a)[j] == rid;
  }

  lemma RemoveQuiet(c: Client, i: nat, rid: nat)
    requires Owned(c) && i < |c.reqs|
    ensures Quiet(c, Remove(c, i), rid) && Owned(Remove(c, i))
    ensures c.reqs[i].rid == rid ==> Lookup(Remove(c, i).reqs, rid) == None
  {
    RemoveOwned(c, i);
    RemoveLookup(c, i, rid);
    if Lookup(c.reqs, rid).Some? {
      assert SameTransfer(Lookup(c.reqs, rid).value, Lookup(c.reqs, rid).value);
    }
  }

  lemma RemoveLookup(c: Client, i: nat, rid: nat)
    requires Owned(c) && i < |c.reqs|
    ensures Lookup(Remove(c, i).reqs, rid) == if c.reqs[i].rid == rid then None else Lookup(c.reqs, rid)
  {
    var reqs := Remove(c, i).reqs;
    OwnedMeans(c);
    var j := IndexOf(reqs, rid);
    var k := IndexOf(c.reqs, rid);
    if k < |c.reqs| && k != i {
      assert reqs[if k < i then k else k - 1] == c.reqs[k];
    }
    if j < |reqs| {
      var m := if j < i then j else j + 1;
      assert reqs[j] == c.reqs[m];
      LookupMember(c, m);
    }
  }

  lemma InvokeQuiet(c: Client, i: nat, rsp: Rsp, nested: bool, user: User, now: int, rid: nat)
    requires Owned(c) && i < |c.reqs|
    requires c.reqs[i].rid == rid ==> rsp.err != 0 && !rsp.more
    ensures var c1 := Invoke(c, i, rsp, nested, user, now).0; Quiet(c, c1, rid) && Owned(c1)
    decreases rsp.more
  {
    var r := c.reqs[i];
    var reaction := user(c.calls, r.rid, rsp);
    var c1 := c.(calls := c.calls + [Call(r.rid, r.observe, nested, rsp, reaction.ret)]);
    assert Quiet(c, c1, rid);
    var c2 := c1;
    if rsp.more && reaction.next.Some? && r.observe {
      InvokeQuiet(c1, i, ErrorRsp(-ENOTSUP), true, user, now, rid);
      c2 := Invoke(c1, i, ErrorRsp(-ENOTSUP), true, user, now).0;
    } else if rsp.more && reaction.next.Some? {
      WithReqQuiet(c1, i, NextBlock(r, reaction.next.value, now), rid);
      c2 := WithReq(c1, i, NextBlock(r, reaction.next.value, now));
    }
    QuietTransitive(c, c1, c2, rid);
    SubmitAllQuiet(c2, reaction.submits, now, rid);
    QuietTransitive(c, c2, SubmitAll(c2, reaction.submits, now), rid);
  }

  lemma FinishQuiet(c: Client, i: nat, rsp: Rsp, user: User, now: int, rid: nat)
    requires Owned(c) && i < |c.reqs|
    requires c.reqs[i].rid == rid ==> rsp.err != 0 && !rsp.more
    ensures Quiet(c, Finish(c, i, rsp, user, now), rid) && Owned(Finish(c, i, rsp, user, now))
  {
    InvokeKeeps(c, i, rsp, false, user, now);
    InvokeQuiet(c, i, rsp, false, user, now, rid);
    var c1 := Invoke(c, i, rsp, false, user, now).0;
    RemoveQuiet(c1, i, rid);
    QuietTransitive(c, c1, Remove(c1, i), rid);
  }

  lemma CompleteQuiet(c: Client, i: nat, rsp: Rsp, user: User, now: int, rid: nat)
    requires Owned(c) && i < |c.reqs| && c.reqs[i].rid != rid
    ensures Quiet(c, Complete(c, i, rsp, user, now), rid)
  {
    InvokeKeeps(c, i, rsp, false, user, now);
    InvokeQuiet(c, i, rsp, false, user, now, rid);
    var c1 := Invoke(c, i, rsp, false, user, now).0;
    RemoveQuiet(c1, i, rid);
    WithReqQuiet(c1, i, c1.reqs[i].(isPending := false), rid);
    QuietTransitive(c, c1, Complete(c, i, rsp, user, now), rid);
  }

  lemma ContinueQuiet(c: Client, i: nat, rsp: Rsp, user: User, now: int, rid: nat)
    requires Owned(c) && i < |c.reqs| && c.reqs[i].rid != rid
    ensures Quiet(c, Continue(c, i, rsp, user, now), rid)
  {
    InvokeKeeps(c, i, rsp, false, user, now);
    InvokeQuiet(c, i, rsp, false, user, now, rid);
    var c1 := Invoke(c, i, rsp, false, user, now).0;
    RemoveQuiet(c1, i, rid);
    QuietTransitive(c, c1, Remove(c1, i), rid);
  }

  lemma OtherReplyQuiet(c: Client, i: nat, rx: Packet, user: User, now: int, rid: nat)
    requires Owned(c) && i < |c.reqs| && c.reqs[i].rid != rid
    ensures Quiet(c, HandleReply(c, i, rx, user, now), rid)
  {
    var r := c.reqs[i];
    if CodeToPosix(rx.code) != 0 {
      FinishQuiet(c, i, ErrorRsp(CodeToPosix(rx.code)), user, now, rid);
    } else if rx.block2.None? {
      CompleteQuiet(c, i, Rsp(rx.payload, 0, |rx.payload|, false, 0), user, now, rid);
    } else {
      var option := rx.block2.value;
      match UpdateFromBlock(r.block, option, rx.size2)
      case None => FinishQuiet(c, i, ErrorRsp(-EBADMSG), user, now, rid);
      case Some(ctx) =>
        if ctx.current < r.block.current {
          WithReqQuiet(c, i, r.(block := ctx.(current := r.block.current)), rid);
        } else {
          var (after, off) := NextOffset(ctx, option, |rx.payload|);
          var c1 := WithReq(c, i, r.(block := after));
          WithReqQuiet(c, i, r.(block := after), rid);
          if off == 0 {
            CompleteQuiet(c1, i, Rsp(rx.payload, ctx.current, after.total, false, 0), user, now, rid);
          } else {
            ContinueQuiet(c1, i, Rsp(rx.payload, ctx.current, after.total, true,
                                     if r.observe then -EMSGSIZE else 0), user, now, rid);
          }
          QuietTransitive(c, c1, HandleReply(c, i, rx, user, now), rid);
        }
    }
  }

  lemma PollOneQuiet(c: Client, i: nat, user: User, now: int, rid: nat)
    requires Owned(c) && i < |c.reqs| && !Settled(c.reqs[i])
    ensures Quiet(c, PollOne(c, i, user, now).0, rid) && Owned(PollOne(c, i, user, now).0)
  {
    var r := c.reqs[i];
    match Poll(r.pending, now, false)
    case GiveUp => FinishQuiet(c, i, ErrorRsp(-ETIMEDOUT), user, now, rid);
    case Wait(p, send, _) =>
      OwnedMeans(c);
      LookupMember(c, i);
      WithReqQuiet(c, i, Polled(r, p, now), rid);
  }

  lemma {:induction false} PollPassQuiet(c: Client, i: nat, user: User, now: int, rid: nat)
    requires Owned(c) && i <= |c.reqs|
    ensures Quiet(c, PollPass(c, i, user, now).0, rid)
    decreases GiveUps(c.reqs[i..], now), |c.reqs| - i
  {
    if i < |c.reqs| {
      if Settled(c.reqs[i]) {
        GiveUpsTail(c.reqs, i, now);
        PollPassQuiet(c, i + 1, user, now, rid);
      } else {
        PollOneQuiet(c, i, user, now, rid);
        PollOneKeeps(c, i, user, now);
        if i + 1 < |c.reqs| {
          var c1 := PollOne(c, i, user, now).0;
          var j := if GivesUp(c.reqs[i], now) then i else i + 1;
          PollPassQuiet(c1, j, user, now, rid);
          QuietTransitive(c, c1, PollPass(c1, j, user, now).0, rid);
        }
      }
    }
  }

  lemma {:induction false} CancelAllQuiet(c: Client, reason: int, user: User, now: int, rid: nat)
    requires !c.connected && Owned(c) && reason != 0
    ensures Quiet(c, CancelAll(c, reason, user, now), rid)
    decreases |c.reqs|
  {
    if c.reqs != [] {
      var c1 := Finish(c, 0, ErrorRsp(reason), user, now);
      InvokeKeeps(c, 0, ErrorRsp(reason), false, user, now);
      FinishQuiet(c, 0, ErrorRsp(reason), user, now, rid);
      CancelAllQuiet(c1, reason, user, now, rid);
      QuietTransitive(c, c1, CancelAll(c1, reason, user, now), rid);
    }
  }
}
