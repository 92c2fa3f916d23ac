/** `golioth_lightdb_get` (net/golioth/lightdb.c) on top of the synchronous request of net/golioth/coap_req.c:
    blocks are copied into the caller's buffer as they arrive. */
module LightDb {
  import opened Common
  import opened Engine
  import opened EngineInvariants
  import opened Blockwise
  import opened QuietSteps

  // ----- The callbacks as functions

  /** The caller's buffer and reported length, and `struct golioth_req_sync_data`: error and semaphore. `past` records how many
      bytes behind the end of the buffer the copies so far have reached. */
  datatype SyncRead = SyncRead(buffer: seq<byte>, len: nat, err: int, given: bool, past: nat)

  /** The length `golioth_lightdb_get_prealloc_cb` works with: the announced total, or what is there so far. */
  function WantedLength(rsp: Rsp): nat
  {
    if rsp.total != 0 then rsp.total else rsp.off + |rsp.data|
  }

  /** What a copy of `data` to `off` leaves in the buffer. */
  function CopyTo(buffer: seq<byte>, off: nat, data: seq<byte>): (r: seq<byte>)
    ensures |r| == |buffer|
    ensures off + |data| <= |buffer| ==> r == buffer[..off] + data + buffer[off + |data|..]
  {
    seq(|buffer|, i requires 0 <= i < |buffer| => if off <= i < off + |data| then data[i - off] else buffer[i])
  }

  /** How far behind the buffer a copy of `data` to `off` reaches. */
  function PastEnd(buffer: seq<byte>, off: nat, data: seq<byte>): nat
  {
    if data != [] && off + |data| > |buffer| then off + |data| - |buffer| else 0
  }

  function Prealloc(s: SyncRead, rsp: Rsp): (SyncRead, int)
  {
    if |s.buffer| < WantedLength(rsp) then (s, -ENOSPC)
    else
      var reach := PastEnd(s.buffer, rsp.off, rsp.data);
      (s.(len := WantedLength(rsp), buffer := CopyTo(s.buffer, rsp.off, rsp.data), past := if reach > s.past then reach else s.past), 0)
  }

  /** `golioth_req_sync_cb`: the state after, the value returned, whether `get_next` was called. The inner
      callback's error is returned but not stored. */
  function SyncCallback(s: SyncRead, rsp: Rsp): (SyncRead, int, bool)
  {
    if rsp.err != 0 then (s.(err := rsp.err, given := true), 0, false)
    else
      var (s1, ret) := Prealloc(s, rsp);
      if ret != 0 then (s1.(given := true), ret, false)
      else if rsp.more then (s1, 0, true)
      else (s1.(given := true), 0, false)
  }

  /** What the buffer and the sync data are after the callbacks `calls` for `rid`. */
  function StateOf(init: SyncRead, calls: seq<Call>, rid: nat): SyncRead
  {
    if calls == [] then init
    else
      var before := StateOf(init, calls[..|calls| - 1], rid);
      var call := calls[|calls| - 1];
      if call.rid == rid then SyncCallback(before, call.rsp).0 else before
  }

  function FreshRead(buffer: seq<byte>): SyncRead
  {
    SyncRead(buffer, 0, 0, false, 0)
  }

  /** The engine's user runs `golioth_req_sync_cb` for `rid`. */
  ghost predicate Synchronous(user: User, rid: nat, init: SyncRead)
  {
    forall calls, rsp ::
      var (_, ret, next) := SyncCallback(StateOf(init, calls, rid), rsp);
      user(calls, rid, rsp).ret == ret && (user(calls, rid, rsp).next.Some? <==> next)
  }

  // ----- The callbacks as the source writes them

  class SyncData {
    const data: array<byte>
    var len: nat
    var err: int
    var given: bool
    ghost var past: nat

    constructor (data: array<byte>)
      ensures State() == FreshRead(data[..]) && this.data == data
    {
      this.data := data;
      len, err, given, past := 0, 0, false, 0;
    }

    ghost function State(): SyncRead
      reads this, data
    {
      SyncRead(data[..], len, err, given, past)
    }

    /** `golioth_lightdb_get_prealloc_cb`. What its copy writes behind the buffer is only counted. */
    method PreallocCb(rsp: Rsp) returns (ret: int)
      modifies this`len, this`past, data
      ensures (State(), ret) == Prealloc(old(State()), rsp)
    {
      var total := rsp.total;
      if total == 0 {
        total := rsp.off + |rsp.data|;
      }
      if data.Length < total {
        return -ENOSPC;
      }
      len := total;
      var i := 0;
      while i < |rsp.data|
        invariant 0 <= i <= |rsp.data|
        invariant len == total && data.Length == |old(data[..])|
        invariant var reach := PastEnd(old(data[..]), rsp.off, rsp.data[..i]);
          past == if reach > old(past) then reach else old(past)
        invariant forall k :: 0 <= k < data.Length ==>
          data[k] == if rsp.off <= k < rsp.off + i then rsp.data[k - rsp.off] else old(data[k])
      {
        if rsp.off + i < data.Length {
          data[rsp.off + i] := rsp.data[i];
        } else if rsp.off + i + 1 - data.Length > past {
          past := rsp.off + i + 1 - data.Length;
        }
        i := i + 1;
      }
      ret := 0;
      assert rsp.data[..i] == rsp.data;
      assert data[..] == CopyTo(old(data[..]), rsp.off, rsp.data);
    }

    /** `golioth_req_sync_cb`; `next` tells that `get_next` was called. */
    method SyncCb(rsp: Rsp) returns (ret: int, next: bool)
      modifies this, data
      ensures (State(), ret, next) == SyncCallback(old(State()), rsp)
    {
      next := false;
      ret := 0;
      if rsp.err != 0 {
        err := rsp.err;
      } else {
        ret := PreallocCb(rsp);
        if ret == 0 && rsp.more {
          next := true;
          return;
        }
      }
      given := true;
    }
  }

  /** `golioth_lightdb_get` once its semaphore is given: the error returned and the length reported. */
  function GetResult(s: SyncRead): (int, nat)
  {
    if s.err != 0 then (s.err, 0) else (0, s.len)
  }

  // ----- What a finished read has in the buffer

  /** The read is still going: what was delivered is at the front of the buffer. */
  ghost predicate Reading(s: SyncRead, delivered: seq<byte>, capacity: nat, resource: seq<byte>)
  {
    && !s.given && s.err == 0 && |s.buffer| == capacity && s.past == 0
    && delivered <= s.buffer
    && (s.len == |delivered| || s.len == |resource| <= capacity)
  }

  /** The read is over. */
  ghost predicate Answered(s: SyncRead, capacity: nat, resource: seq<byte>)
  {
    && s.given && s.past == 0
    && (s.err == 0 ==>
          && s.len <= |resource| && s.len <= |s.buffer| == capacity
          && s.buffer[..s.len] == resource[..s.len]
          && (s.len == |resource| <==> capacity >= |resource|))
  }

  /** The callbacks of `rid` are those of a plain read. */
  ghost predicate NotObserving(calls: seq<Call>, rid: nat)
  {
    forall k :: 0 <= k < |calls| && calls[k].rid == rid ==> !calls[k].observe
  }

  /** None of them was made from inside another. */
  ghost predicate NotNested(calls: seq<Call>, rid: nat)
  {
    forall k :: 0 <= k < |calls| && calls[k].rid == rid ==> !calls[k].nested
  }

  lemma {:induction false} ReadHistory(calls: seq<Call>, rid: nat, user: User, init: SyncRead, resource: seq<byte>)
    requires init == FreshRead(init.buffer) && Synchronous(user, rid, init)
    requires Safe(calls, rid, resource) && Faithful(calls, user) && Track(calls, rid) != Broken
    requires NotObserving(calls, rid) && NotNested(calls, rid)
    ensures var s := StateOf(init, calls, rid);
      if Track(calls, rid) == Open then Reading(s, Delivered(calls, rid), |init.buffer|, resource)
      else Answered(s, |init.buffer|, resource)
  {
    if calls != [] {
      var n := |calls| - 1;
      var before := calls[..n];
      HistoryPrefix(calls, rid, resource, user);
      ReadHistory(before, rid, user, init, resource);
      if calls[n].rid == rid {
        ReadStep(StateOf(init, before, rid), Delivered(before, rid), calls[n].rsp, |init.buffer|, resource,
                 Delivered(calls, rid));
        assert calls[n].ret == SyncCallback(StateOf(init, before, rid), calls[n].rsp).1;
      }
    }
  }

  /** A shorter history is safe too. */
  lemma HistoryPrefix(calls: seq<Call>, rid: nat, resource: seq<byte>, user: User)
    requires calls != [] && Safe(calls, rid, resource) && Faithful(calls, user) && Track(calls, rid) != Broken
    requires NotObserving(calls, rid) && NotNested(calls, rid)
    ensures var before := calls[..|calls| - 1];
      Safe(before, rid, resource) && Faithful(before, user) && Track(before, rid) != Broken
    ensures var call := calls[|calls| - 1];
      call.rid == rid ==> Track(calls[..|calls| - 1], rid) == Open
    ensures var call := calls[|calls| - 1];
      Payload(call, rid) ==>
        && call.rsp.off == |Delivered(calls[..|calls| - 1], rid)|
        && (!call.rsp.more ==> Delivered(calls, rid) == resource)
        && (call.rsp.total == 0 || call.rsp.total == |resource|)
  {
    var n := |calls| - 1;
    var before := calls[..n];
    forall k | 0 <= k < n
      ensures before[k] == calls[k] && before[..k] == calls[..k]
    {
    }
    assert Delivered(before, rid) <= resource by {
      assert Delivered(before, rid) <= Delivered(calls, rid);
    }
    if Payload(calls[n], rid) && !calls[n].rsp.more { assert Finished(calls, rid); }
    TrackMeans(before, rid);
    if Finished(before, rid) {
      var k :| 0 <= k < |before| && Payload(before[k], rid) && !before[k].rsp.more;
      assert Terminal(before[k]);
      assert Payload(calls[k], rid) && !calls[k].rsp.more;
      assert calls[n].rid != rid;
    }
  }

  /** One callback of a read that is still going. */
  lemma ReadStep(s: SyncRead, delivered: seq<byte>, rsp: Rsp, capacity: nat, resource: seq<byte>, after: seq<byte>)
    requires Reading(s, delivered, capacity, resource)
    requires after == if rsp.err == 0 then delivered + rsp.data else delivered
    requires after <= resource
    requires rsp.err == 0 ==>
      && rsp.off == |delivered|
      && (!rsp.more ==> after == resource)
      && (rsp.total == 0 || rsp.total == |resource|)
    ensures var (s1, ret, _) := SyncCallback(s, rsp);
      if rsp.err == 0 && ret == 0 && rsp.more then Reading(s1, after, capacity, resource)
      else Answered(s1, capacity, resource)
  {
    if rsp.err == 0 && capacity >= WantedLength(rsp) {
      hide CopyTo;
      CopyExtends(s.buffer, delivered, rsp.data);
    }
  }

  lemma CopyExtends(buffer: seq<byte>, delivered: seq<byte>, data: seq<byte>)
    requires delivered <= buffer && |delivered| + |data| <= |buffer|
    ensures delivered + data <= CopyTo(buffer, |delivered|, data)
  {
    assert buffer[..|delivered|] == delivered;
  }

  lemma RunHistory(events: seq<Event>, user: User, rid: nat, server: Server, buffer: seq<byte>)
    requires AllowedRun(events, user, rid, server) && Synchronous(user, rid, FreshRead(buffer))
    requires NotObserving(Run(events, user).calls, rid)
    ensures var s := StateOf(FreshRead(buffer), Run(events, user).calls, rid);
      s.past == 0 && (s.given ==> Answered(s, |buffer|, server.resource))
  {
    hide TransferInv, AllowedRun, Synchronous, Safe, Faithful, ListedOpen, FreedDone;
    var c := Run(events, user);
    TransferOverRuns(events, user, rid, server);
    TransferIsSafe(c, rid, server);
    RunInv(events, user);
    RunFaithful(events, user);
    CallsOf(c, rid);
    ReadHistory(c.calls, rid, user, FreshRead(buffer), server.resource);
  }

  lemma TransferIsSafe(c: Client, rid: nat, server: Server)
    requires TransferInv(c, rid, server)
    ensures Safe(c.calls, rid, server.resource)
  {
  }

  /** A plain read has no callbacks from inside callbacks, and completes once. */
  lemma CallsOf(c: Client, rid: nat)
    requires Inv(c) && NotObserving(c.calls, rid)
    ensures Track(c.calls, rid) != Broken
    ensures NotNested(c.calls, rid)
  {
    OwnedMeans(c);
    if rid !in c.accepted { NoCalls(c.calls, rid); }
  }

  /** When `golioth_lightdb_get` returns 0, against a server with one fixed resource and any network: the bytes it
      reports are the beginning of the resource, and all of it exactly when the buffer was large enough.
      It can return 0 with less: a buffer too small stops the transfer, but that error is not stored. */
  lemma EndToEndRead(events: seq<Event>, user: User, rid: nat, server: Server, buffer: seq<byte>)
    requires AllowedRun(events, user, rid, server) && Synchronous(user, rid, FreshRead(buffer))
    requires NotObserving(Run(events, user).calls, rid)
    requires StateOf(FreshRead(buffer), Run(events, user).calls, rid).given
    ensures var s := StateOf(FreshRead(buffer), Run(events, user).calls, rid);
      var (err, len) := GetResult(s);
      err == 0 ==>
        && len <= |server.resource| && len <= |s.buffer| == |buffer|
        && s.buffer[..len] == server.resource[..len]
        && (len == |server.resource| <==> |buffer| >= |server.resource|)
  {
    RunHistory(events, user, rid, server, buffer);
  }

  // ----- Errors

  /** Call `k` is the last one with an error for `rid`. */
  ghost predicate LastErrorAt(calls: seq<Call>, rid: nat, k: int)
  {
    && 0 <= k < |calls| && calls[k].rid == rid && calls[k].rsp.err != 0
    && forall j :: k < j < |calls| && calls[j].rid == rid ==> calls[j].rsp.err == 0
  }

  /** The read gives back the last error its callback was told, as it was, and 0 when there was none. */
  lemma {:induction false} ErrorKept(init: SyncRead, calls: seq<Call>, rid: nat)
    requires init.err == 0
    ensures var s := StateOf(init, calls, rid);
      if exists k :: LastErrorAt(calls, rid, k)
      then s.given && exists k :: LastErrorAt(calls, rid, k) && GetResult(s) == (calls[k].rsp.err, 0)
      else GetResult(s).0 == 0 && forall k :: 0 <= k < |calls| && calls[k].rid == rid ==> calls[k].rsp.err == 0
  {
    hide Prealloc;
    if calls != [] {
      var n := |calls| - 1;
      var init1, call := calls[..n], calls[n];
      ErrorKept(init, init1, rid);
      if call.rid == rid && call.rsp.err != 0 {
        assert LastErrorAt(calls, rid, n);
        assert forall k :: LastErrorAt(calls, rid, k) ==> k == n;
      } else {
        PreallocKeepsError(StateOf(init, init1, rid), call.rsp);
        assert forall k :: LastErrorAt(init1, rid, k) ==> LastErrorAt(calls, rid, k);
        assert forall k :: LastErrorAt(calls, rid, k) ==> k < n && LastErrorAt(init1, rid, k);
      }
    }
  }

  lemma PreallocKeepsError(s: SyncRead, rsp: Rsp)
    ensures Prealloc(s, rsp).0.err == s.err && Prealloc(s, rsp).0.given == s.given
  {
  }

  /** In every run: an error the read's callback is told, a timeout, a refusal or a disconnect, is what the read returns. */
  lemma ErrorReturned(events: seq<Event>, user: User, rid: nat, buffer: seq<byte>, k: nat)
    requires NotObserving(Run(events, user).calls, rid)
    requires k < |Run(events, user).calls| && Run(events, user).calls[k].rid == rid && Run(events, user).calls[k].rsp.err != 0
    ensures var calls := Run(events, user).calls;
      var s := StateOf(FreshRead(buffer), calls, rid);
      s.given && GetResult(s) == (calls[k].rsp.err, 0)
  {
    var calls := Run(events, user).calls;
    RunInv(events, user);
    CallsOf(Run(events, user), rid);
    TrackMeans(calls, rid);
    var m :| CompletesAt(calls, rid, m);
    assert Terminal(calls[k]);
    assert m == k;
    assert LastErrorAt(calls, rid, k);
    ErrorKept(FreshRead(buffer), calls, rid);
    assert forall j :: LastErrorAt(calls, rid, j) ==> j == k;
  }

  // ----- Copies behind the buffer

  /** An accepted copy leaves the buffer exactly when a total is announced that fits the buffer and the payload overruns both. */
  lemma CopyLeavesTheBuffer(s: SyncRead, rsp: Rsp)
    requires s.past == 0
    ensures var (s1, ret) := Prealloc(s, rsp);
      s1.past > 0 <==> rsp.data != [] && rsp.total != 0 && rsp.total <= |s.buffer| < rsp.off + |rsp.data|
    ensures Prealloc(s, rsp).1 == 0 ==> Prealloc(s, rsp).0.past == PastEnd(s.buffer, rsp.off, rsp.data)
  {
  }

  /** The copy is accepted when what is announced, or else what is there, fits the buffer; then the payload is at its offset, the rest
      of the buffer is as it was, and the length is the one announced, or else the end of the payload. */
  lemma CopyMeans(s: SyncRead, rsp: Rsp)
    ensures var (s1, ret) := Prealloc(s, rsp);
      var wanted := if rsp.total != 0 then rsp.total else rsp.off + |rsp.data|;
      if wanted > |s.buffer| then ret == -28 && s1 == s
      else
        && ret == 0 && s1.len == wanted && |s1.buffer| == |s.buffer| && s1.err == s.err && s1.given == s.given
        && forall k :: 0 <= k < |s.buffer| ==>
             s1.buffer[k] == if rsp.off <= k < rsp.off + |rsp.data| then rsp.data[k - rsp.off] else s.buffer[k]
  {
  }

  /** A server with one fixed resource never causes that, whatever the network does and however small the buffer is. */
  lemma ServerStaysInTheBuffer(events: seq<Event>, user: User, rid: nat, server: Server, buffer: seq<byte>)
    requires AllowedRun(events, user, rid, server) && Synchronous(user, rid, FreshRead(buffer))
    requires NotObserving(Run(events, user).calls, rid)
    ensures StateOf(FreshRead(buffer), Run(events, user).calls, rid).past == 0
  {
    RunHistory(events, user, rid, server, buffer);
  }

  /** Another server does: 32 bytes come as the last block of a resource announced to have 16. The engine hands them over, and
      the copy into a buffer for 16 reaches 16 bytes behind it. */
  lemma OverrunIsCopied(c: Client, i: nat, rx: Packet, user: User, now: int, buffer: seq<byte>)
    requires i < |c.reqs| && !c.reqs[i].observe && c.reqs[i].block.current == 0 && c.reqs[i].block.total == 0
    requires CodeToPosix(rx.code) == 0 && rx.block2 == Some(BlockOption(0, false, 1)) && rx.size2 == 16 && |rx.payload| == 32
    requires |buffer| == 16
    ensures var c1 := HandleReply(c, i, rx, user, now);
      && |c.calls| < |c1.calls|
      && var (s1, ret) := Prealloc(FreshRead(buffer), c1.calls[|c.calls|].rsp);
         ret == 0 && s1.past == 16
  {
    var option := BlockOption(0, false, 1);
    OptionParts(0, false, 1);
    var ctx := UpdateFromBlock(c.reqs[i].block, option, 16).value;
    GetNextOffered(c, i, rx, ctx, user, now);
  }

  /** A read of two blocks into a buffer for one: 0 is returned although the callback refused the second block. */
  lemma ShortReadReturnsZero()
    ensures var s0 := FreshRead(seq(16, _ => 0));
      var (s1, _, _) := SyncCallback(s0, Rsp(seq(16, _ => 1), 0, 0, true, 0));
      var (s2, ret, _) := SyncCallback(s1, Rsp(seq(16, _ => 1), 16, 0, false, 0));
      ret == -28 && s2.given && GetResult(s2) == (0, 16)
  {
  }
}
