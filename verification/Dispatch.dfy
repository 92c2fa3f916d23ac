/** Which request an incoming packet reaches and what becomes of it, told by tokens, ids and response codes alone. */
module Dispatch {
  import opened Common
  import opened Backoff
  import opened ObserveOrder
  import opened Engine
  import opened EngineInvariants

  // ----- Tokens and ids

  /** Live tokens are 8 bytes long and distinct. */
  ghost predicate DistinctTokens(reqs: seq<Req>)
  {
    && (forall i :: 0 <= i < |reqs| ==> |reqs[i].token| == 8)
    && forall i, j :: 0 <= i < j < |reqs| ==> reqs[i].token != reqs[j].token
  }

  /** Only request `i` was called back, all other listed requests are as they were and in their places, and request `i` is in
      its place or gone. */
  ghost predicate OnlyConcerns(c: Client, c1: Client, i: nat)
    requires i < |c.reqs|
  {
    && c.calls <= c1.calls && (forall k :: |c.calls| <= k < |c1.calls| ==> c1.calls[k].rid == c.reqs[i].rid)
    && c1.sends == c.sends
    && (Stays(c, c1, i) || Leaves(c, c1, i))
  }

  ghost predicate Stays(c: Client, c1: Client, i: nat)
    requires i < |c.reqs|
  {
    && |c.reqs| <= |c1.reqs| && c1.reqs[i].rid == c.reqs[i].rid
    && forall k :: 0 <= k < |c.reqs| && k != i ==> c1.reqs[k] == c.reqs[k]
  }

  ghost predicate Leaves(c: Client, c1: Client, i: nat)
    requires i < |c.reqs|
  {
    && |c.reqs| - 1 <= |c1.reqs| && c.freed <= c1.freed && c.reqs[i].rid in c1.freed[|c.freed|..]
    && (forall k :: 0 <= k < i ==> c1.reqs[k] == c.reqs[k])
    && forall k :: i < k < |c.reqs| ==> c1.reqs[k - 1] == c.reqs[k]
  }

  // ----- One request concerned

  lemma InvokeConcerns(c: Client, i: nat, rsp: Rsp, nested: bool, user: User, now: int)
    requires i < |c.reqs|
    ensures var c1 := Invoke(c, i, rsp, nested, user, now).0;
      OnlyConcerns(c, c1, i) && Stays(c, c1, i) && c.freed <= c1.freed
    decreases rsp.more
  {
    InvokeKeeps(c, i, rsp, nested, user, now);
    var r := c.reqs[i];
    var reaction := user(c.calls, r.rid, rsp);
    var c1 := c.(calls := c.calls + [Call(r.rid, r.observe, nested, rsp, reaction.ret)]);
    if rsp.more && reaction.next.Some? && r.observe {
      InvokeConcerns(c1, i, ErrorRsp(-ENOTSUP), true, user, now);
      SubmitAllKeeps(Invoke(c1, i, ErrorRsp(-ENOTSUP), true, user, now).0, reaction.submits, now);
    } else if rsp.more && reaction.next.Some? {
      SubmitAllKeeps(WithReq(c1, i, NextBlock(r, reaction.next.value, now)), reaction.submits, now);
    } else {
      SubmitAllKeeps(c1, reaction.submits, now);
    }
  }

  lemma RemovedLeaves(c: Client, c1: Client, i: nat)
    requires i < |c.reqs| && OnlyConcerns(c, c1, i) && Stays(c, c1, i) && c.freed <= c1.freed
    ensures OnlyConcerns(c, Remove(c1, i), i) && Leaves(c, Remove(c1, i), i)
  {
    var c2 := Remove(c1, i);
    assert c2.freed[|c2.freed| - 1] == c.reqs[i].rid;
    assert c2.freed[|c.freed|..][|c2.freed| - 1 - |c.freed|] == c.reqs[i].rid;
  }

  lemma ExitsConcern(c: Client, i: nat, rsp: Rsp, user: User, now: int)
    requires i < |c.reqs|
    ensures OnlyConcerns(c, Finish(c, i, rsp, user, now), i) && Leaves(c, Finish(c, i, rsp, user, now), i)
    ensures OnlyConcerns(c, Complete(c, i, rsp, user, now), i)
    ensures !c.reqs[i].observe ==> Leaves(c, Complete(c, i, rsp, user, now), i)
    ensures c.reqs[i].observe ==>
      Stays(c, Complete(c, i, rsp, user, now), i) && !Complete(c, i, rsp, user, now).reqs[i].isPending
    ensures OnlyConcerns(c, Continue(c, i, rsp, user, now), i)
  {
    hide Invoke, Remove;
    InvokeKeeps(c, i, rsp, false, user, now);
    InvokeConcerns(c, i, rsp, false, user, now);
    RemovedLeaves(c, Invoke(c, i, rsp, false, user, now).0, i);
  }

  lemma WithReqConcerns(c: Client, i: nat, r: Req, c1: Client)
    requires i < |c.reqs| && r.rid == c.reqs[i].rid && OnlyConcerns(WithReq(c, i, r), c1, i)
    ensures OnlyConcerns(c, c1, i)
    ensures Leaves(WithReq(c, i, r), c1, i) ==> Leaves(c, c1, i)
    ensures Stays(WithReq(c, i, r), c1, i) ==> Stays(c, c1, i)
  {
    var c0 := WithReq(c, i, r);
    if Leaves(c0, c1, i) {
      forall k | i < k < |c.reqs|
        ensures c1.reqs[k - 1] == c.reqs[k]
      {
        assert c0.reqs[k] == c.reqs[k];
      }
    }
  }

  lemma ReplyConcerns(c: Client, i: nat, rx: Packet, user: User, now: int)
    requires i < |c.reqs|
    ensures OnlyConcerns(c, HandleReply(c, i, rx, user, now), i)
  {
    hide Finish, Complete, Continue, OnlyConcerns, UpdateFromBlock, NextOffset;
    var r := c.reqs[i];
    if CodeToPosix(rx.code) != 0 {
      ExitsConcern(c, i, ErrorRsp(CodeToPosix(rx.code)), user, now);
    } else if rx.block2.None? {
      ExitsConcern(c, i, Rsp(rx.payload, 0, |rx.payload|, false, 0), user, now);
    } else {
      match UpdateFromBlock(r.block, rx.block2.value, rx.size2)
      case None => ExitsConcern(c, i, ErrorRsp(-EBADMSG), user, now);
      case Some(ctx) =>
        var r0 := r.(block := ctx.(current := r.block.current));
        SameConcerns(WithReq(c, i, r0), i);
        WithReqConcerns(c, i, r0, WithReq(c, i, r0));
        var (after, off) := NextOffset(ctx, rx.block2.value, |rx.payload|);
        var r1 := r.(block := after);
        var rsp := Rsp(rx.payload, ctx.current, after.total, off != 0, if off != 0 && r.observe then -EMSGSIZE else 0);
        ExitsConcern(WithReq(c, i, r1), i, rsp, user, now);
        WithReqConcerns(c, i, r1, Complete(WithReq(c, i, r1), i, rsp, user, now));
        WithReqConcerns(c, i, r1, Continue(WithReq(c, i, r1), i, rsp, user, now));
    }
  }

  lemma SameConcerns(c: Client, i: nat)
    requires i < |c.reqs|
    ensures OnlyConcerns(c, c, i)
  {
  }

  lemma FoundConcerns(c: Client, i: nat, rx: Packet, user: User, now: int)
    requires i < |c.reqs| && FindMatch(c.reqs, rx) == i
    ensures OnlyConcerns(c, ProcessRx(c, rx, user, now), i)
  {
    hide OnlyConcerns, HandleReply;
    SameConcerns(c, i);
    ReplyConcerns(c, i, rx, user, now);
    if rx.observe.Some? {
      var r := c.reqs[i].(reply := Reply(rx.observe.value, now));
      ReplyConcerns(WithReq(c, i, r), i, rx, user, now);
      WithReqConcerns(c, i, r, HandleReply(WithReq(c, i, r), i, rx, user, now));
    }
  }

  lemma FindIs(reqs: seq<Req>, rx: Packet, i: nat)
    requires i <= |reqs| && (i < |reqs| ==> Matches(reqs[i], rx)) && forall j :: 0 <= j < i ==> !Matches(reqs[j], rx)
    ensures FindMatch(reqs, rx) == i
  {
    var k := FindMatch(reqs, rx);
    assert k <= i;
  }

  // ----- Dispatch

  /** Among distinct tokens, a packet with the token of a listed request concerns that request alone. */
  lemma AnswerByToken(c: Client, i: nat, rx: Packet, user: User, now: int)
    requires DistinctTokens(c.reqs) && i < |c.reqs| && rx.token == c.reqs[i].token
    ensures OnlyConcerns(c, ProcessRx(c, rx, user, now), i)
  {
    FindIs(c.reqs, rx, i);
    FoundConcerns(c, i, rx, user, now);
  }

  /** A packet with a whole token that no listed request has changes nothing at all. */
  lemma UnknownToken(c: Client, rx: Packet, user: User, now: int)
    requires DistinctTokens(c.reqs) && |rx.token| == 8 && forall r :: r in c.reqs ==> r.token != rx.token
    ensures ProcessRx(c, rx, user, now) == c
  {
    FindIs(c.reqs, rx, |c.reqs|);
  }

  /** A packet without a token concerns the first request with its message id alone, and changes nothing when there is none. */
  lemma AnswerById(c: Client, i: nat, rx: Packet, user: User, now: int)
    requires DistinctTokens(c.reqs) && rx.token == []
    requires i <= |c.reqs| && (i < |c.reqs| ==> c.reqs[i].id == rx.id) && forall j :: 0 <= j < i ==> c.reqs[j].id != rx.id
    ensures if i < |c.reqs| then OnlyConcerns(c, ProcessRx(c, rx, user, now), i) else ProcessRx(c, rx, user, now) == c
  {
    FindIs(c.reqs, rx, i);
    if i < |c.reqs| { FoundConcerns(c, i, rx, user, now); }
  }

  /** A packet with the beginning of tokens concerns the first request whose token begins with it alone. */
  lemma AnswerByPartialToken(c: Client, i: nat, rx: Packet, user: User, now: int)
    requires 0 < |rx.token| && i < |c.reqs| && |rx.token| <= |c.reqs[i].token| && c.reqs[i].token[..|rx.token|] == rx.token
    requires forall j :: 0 <= j < i ==> |c.reqs[j].token| < |rx.token| || c.reqs[j].token[..|rx.token|] != rx.token
    ensures OnlyConcerns(c, ProcessRx(c, rx, user, now), i)
  {
    FindIs(c.reqs, rx, i);
    FoundConcerns(c, i, rx, user, now);
  }

  /** Requests without token and id are never answered. */
  lemma NamelessNeverAnswered(c: Client, rx: Packet, user: User, now: int)
    requires forall r :: r in c.reqs ==> r.token == [] && r.id == 0
    ensures ProcessRx(c, rx, user, now) == c
  {
    FindIs(c.reqs, rx, |c.reqs|);
  }

  // ----- What callbacks submit

  function BuiltOnes(ds: seq<Draft>): seq<Draft>
  {
    if ds == [] then []
    else BuiltOnes(ds[..|ds| - 1]) + if ds[|ds| - 1].build.Built? then [ds[|ds| - 1]] else []
  }

  /** These drafts were listed behind the requests there were, in order, and raised a wakeup each. */
  ghost predicate Listed(c: Client, c1: Client, ds: seq<Draft>)
  {
    && |c1.reqs| == |c.reqs| + |ds| && c1.wakeups == c.wakeups + |ds|
    && forall k :: 0 <= k < |ds| ==>
         var r := c1.reqs[|c.reqs| + k]; r.token == ds[k].token && r.id == ds[k].id && r.observe == ds[k].observe
  }

  /** While connected, everything submitted that could be built is listed, in order. */
  lemma {:induction false} SubmittedInOrder(c: Client, ds: seq<Draft>, now: int)
    requires c.connected
    ensures SubmitAll(c, ds, now).connected && Listed(c, SubmitAll(c, ds, now), BuiltOnes(ds))
  {
    if ds != [] {
      SubmittedInOrder(c, ds[..|ds| - 1], now);
    }
  }

  /** So is what a callback submits, in that callback. */
  lemma CallbackSubmits(c: Client, i: nat, rsp: Rsp, user: User, now: int)
    requires i < |c.reqs| && c.connected && !rsp.more
    ensures Listed(c, Invoke(c, i, rsp, false, user, now).0, BuiltOnes(user(c.calls, c.reqs[i].rid, rsp).submits))
  {
    var reaction := user(c.calls, c.reqs[i].rid, rsp);
    var c1 := c.(calls := c.calls + [Call(c.reqs[i].rid, c.reqs[i].observe, false, rsp, reaction.ret)]);
    SubmittedInOrder(c1, reaction.submits, now);
  }

  // ----- What becomes of it

  /** A response code as section 5.9 of RFC 7252 writes it, class and detail. */
  function Code(class_: nat, detail: nat): byte
    requires class_ < 8 && detail < 32
  {
    class_ * 32 + detail
  }

  /** The error numbers that response codes are reported as: success for class 2 alone, and a negative number, each in its own
      way, for everything else. */
  lemma CodesMean()
    ensures forall code: byte :: CodeToPosix(code) == 0 <==> 64 <= code < 96
    ensures forall code: byte :: CodeToPosix(code) <= 0
    ensures CodeToPosix(Code(4, 0)) == -14
    ensures forall d :: d in {1, 3, 5, 6, 12} ==> CodeToPosix(Code(4, d)) == -13
    ensures CodeToPosix(Code(4, 2)) == CodeToPosix(Code(4, 8)) == -22
    ensures CodeToPosix(Code(4, 4)) == -2
    ensures CodeToPosix(Code(4, 9)) == CodeToPosix(Code(4, 29)) == -16
    ensures CodeToPosix(Code(4, 13)) == -7
    ensures CodeToPosix(Code(4, 15)) == -95
    ensures forall d | 0 <= d < 32 && d !in {0, 1, 2, 3, 4, 5, 6, 8, 9, 12, 13, 15, 29} :: CodeToPosix(Code(4, d)) == -74
    ensures forall code: byte :: (code < 64 || 96 <= code < 128 || 160 <= code) ==> CodeToPosix(code) == -74
  {
  }

  /** A response without Block2 that is not an old notification: the request's first new callback has the whole payload, or the
      error number of the response's code; then the request is gone, but for an observation without an error, which stays and is
      answered. */
  lemma WholeAnswer(c: Client, i: nat, rx: Packet, user: User, now: int)
    requires DistinctTokens(c.reqs) && i < |c.reqs| && rx.token == c.reqs[i].token && rx.block2 == None
    requires rx.observe.None? || ReplyIsNewer(c.reqs[i].reply, rx.observe.value, now)
    ensures var c1 := ProcessRx(c, rx, user, now);
      && |c.calls| < |c1.calls| && c1.calls[|c.calls|].rid == c.reqs[i].rid
      && c1.calls[|c.calls|].rsp ==
           (if 64 <= rx.code < 96 then Rsp(rx.payload, 0, |rx.payload|, false, 0) else Rsp([], 0, 0, false, CodeToPosix(rx.code)))
      && (if c.reqs[i].observe && 64 <= rx.code < 96 then Stays(c, c1, i) && !c1.reqs[i].isPending else Leaves(c, c1, i))
  {
    hide Finish, Complete, OnlyConcerns, Leaves, CodeToPosix;
    CodesMean();
    FindIs(c.reqs, rx, i);
    var r := if rx.observe.None? then c.reqs[i] else c.reqs[i].(reply := Reply(rx.observe.value, now));
    var rsp := if 64 <= rx.code < 96 then Rsp(rx.payload, 0, |rx.payload|, false, 0) else ErrorRsp(CodeToPosix(rx.code));
    assert WithReq(c, i, c.reqs[i]) == c;
    var c0 := WithReq(c, i, r);
    FinishCalls(c0, i, rsp, user, now);
    ExitsConcern(c0, i, rsp, user, now);
    WithReqConcerns(c, i, r, ProcessRx(c, rx, user, now));
  }

  /** What the context of a transfer does not allow of a block: another announced size, larger blocks than the client asks for
      once it has some, or a block behind the announced end. */
  predicate Inconsistent(ctx: BlockCtx, option: nat, size2: nat)
  {
    || (size2 != 0 && ctx.total != 0 && size2 != ctx.total)
    || (ctx.current > 0 && option % 8 > ctx.szx)
    || (ctx.total != 0 && option / 16 * (16 * Pow2(option % 8)) > ctx.total)
  }

  /** A successful Block2 response to a plain request: -EBADMSG and the end if and only if it is inconsistent; otherwise no call
      if its offset is one handed over before, or else the payload at its offset. */
  lemma BlockAnswered(c: Client, i: nat, rx: Packet, user: User, now: int)
    requires DistinctTokens(c.reqs) && i < |c.reqs| && rx.token == c.reqs[i].token && !c.reqs[i].observe
    requires 64 <= rx.code < 96 && rx.block2.Some? && rx.observe == None
    ensures var c1 := ProcessRx(c, rx, user, now);
      var (ctx, option) := (c.reqs[i].block, rx.block2.value);
      var off := option / 16 * (16 * Pow2(option % 8));
      if Inconsistent(ctx, option, rx.size2) then
        && |c.calls| < |c1.calls| && c1.calls[|c.calls|].rid == c.reqs[i].rid
        && c1.calls[|c.calls|].rsp == Rsp([], 0, 0, false, -74) && Leaves(c, c1, i)
      else if off < ctx.current then c1.calls == c.calls && Stays(c, c1, i)
      else
        && |c.calls| < |c1.calls| && c1.calls[|c.calls|].rid == c.reqs[i].rid
        && c1.calls[|c.calls|].rsp.data == rx.payload && c1.calls[|c.calls|].rsp.off == off && c1.calls[|c.calls|].rsp.err == 0
  {
    hide Invoke, Finish, Complete, Continue, OnlyConcerns, Leaves, CodeToPosix;
    CodesMean();
    FindIs(c.reqs, rx, i);
    var (r, option) := (c.reqs[i], rx.block2.value);
    match UpdateFromBlock(r.block, option, rx.size2)
    case None =>
      ExitsConcern(c, i, ErrorRsp(-EBADMSG), user, now);
      FinishCalls(c, i, ErrorRsp(-EBADMSG), user, now);
    case Some(ctx) =>
      if ctx.current >= r.block.current {
        var (after, off) := NextOffset(ctx, option, |rx.payload|);
        FinishCalls(WithReq(c, i, r.(block := after)), i, Rsp(rx.payload, ctx.current, after.total, off != 0, 0), user, now);
      }
  }

  /** Whatever follows a callback, it is the first new one. */
  lemma FinishCalls(c: Client, i: nat, rsp: Rsp, user: User, now: int)
    requires i < |c.reqs|
    ensures forall c1 :: c1 in {Finish(c, i, rsp, user, now), Complete(c, i, rsp, user, now), Continue(c, i, rsp, user, now)} ==>
      |c.calls| < |c1.calls| && c1.calls[|c.calls|].rid == c.reqs[i].rid && c1.calls[|c.calls|].rsp == rsp
  {
    hide Invoke;
    InvokeKeeps(c, i, rsp, false, user, now);
    FirstCall(c, i, rsp, user, now);
  }

  /** An observation cannot go on block-wise: a block with more to come is handed over with -EMSGSIZE, a get_next in that callback is
      answered by another with -ENOTSUP, and the observation is gone. */
  lemma ObservedBlock(c: Client, i: nat, rx: Packet, user: User, now: int)
    requires DistinctTokens(c.reqs) && i < |c.reqs| && rx.token == c.reqs[i].token && c.reqs[i].observe
    requires 64 <= rx.code < 96 && rx.block2.Some? && rx.observe == None
    requires !Inconsistent(c.reqs[i].block, rx.block2.value, rx.size2)
    requires var off := rx.block2.value / 16 * (16 * Pow2(rx.block2.value % 8));
      var total := if rx.size2 != 0 then rx.size2 else c.reqs[i].block.total;
      && rx.block2.value / 8 % 2 == 1 && off >= c.reqs[i].block.current && off + |rx.payload| > 0
      && (total == 0 || off + |rx.payload| <= total)
    ensures var c1 := ProcessRx(c, rx, user, now);
      var n := |c.calls|;
      && Leaves(c, c1, i) && n < |c1.calls| && c1.calls[n].rid == c.reqs[i].rid
      && c1.calls[n].rsp.data == rx.payload && c1.calls[n].rsp.err == -90
      && (user(c.calls, c.reqs[i].rid, c1.calls[n].rsp).next.Some? ==>
            n + 1 < |c1.calls| && c1.calls[n + 1].rid == c.reqs[i].rid && c1.calls[n + 1].rsp == Rsp([], 0, 0, false, -95))
  {
    hide Invoke, Finish, Complete, OnlyConcerns, Leaves, CodeToPosix;
    CodesMean();
    FindIs(c.reqs, rx, i);
    var (r, option) := (c.reqs[i], rx.block2.value);
    var ctx := UpdateFromBlock(r.block, option, rx.size2).value;
    var (after, off) := NextOffset(ctx, option, |rx.payload|);
    var c0 := WithReq(c, i, r.(block := after));
    var rsp := Rsp(rx.payload, ctx.current, after.total, true, -EMSGSIZE);
    ExitsConcern(c0, i, rsp, user, now);
    FinishCalls(c0, i, rsp, user, now);
    NestedCall(c0, i, rsp, user, now);
    WithReqConcerns(c, i, r.(block := after), Continue(c0, i, rsp, user, now));
  }

  lemma NestedCall(c: Client, i: nat, rsp: Rsp, user: User, now: int)
    requires i < |c.reqs| && c.reqs[i].observe && rsp.more
    ensures Leaves(c, Continue(c, i, rsp, user, now), i)
    ensures var calls := Continue(c, i, rsp, user, now).calls;
      user(c.calls, c.reqs[i].rid, rsp).next.Some? ==>
        && |c.calls| + 1 < |calls| && calls[|c.calls| + 1].rid == c.reqs[i].rid
        && calls[|c.calls| + 1].rsp == ErrorRsp(-ENOTSUP)
  {
    InvokeKeeps(c, i, rsp, false, user, now);
    InvokeConcerns(c, i, rsp, false, user, now);
    RemovedLeaves(c, Invoke(c, i, rsp, false, user, now).0, i);
    var r := c.reqs[i];
    var reaction := user(c.calls, r.rid, rsp);
    var c1 := c.(calls := c.calls + [Call(r.rid, r.observe, false, rsp, reaction.ret)]);
    if reaction.next.Some? {
      NestedFirst(c1, i, user, now);
      SubmitAllKeeps(Invoke(c1, i, ErrorRsp(-ENOTSUP), true, user, now).0, reaction.submits, now);
    }
  }

  lemma NestedFirst(c: Client, i: nat, user: User, now: int)
    requires i < |c.reqs|
    ensures var calls := Invoke(c, i, ErrorRsp(-ENOTSUP), true, user, now).0.calls;
      |c.calls| < |calls| && calls[|c.calls|].rid == c.reqs[i].rid && calls[|c.calls|].rsp == ErrorRsp(-ENOTSUP)
  {
    var r := c.reqs[i];
    var reaction := user(c.calls, r.rid, ErrorRsp(-ENOTSUP));
    SubmitAllKeeps(c.(calls := c.calls + [Call(r.rid, r.observe, true, ErrorRsp(-ENOTSUP), reaction.ret)]), reaction.submits, now);
  }
}
