/** The map decoder of net/golioth/zcbor_utils.c and the list decoder of rpc.c as they run on a zcbor cursor. */
module MapDecoder {
  import opened Common
  import opened Cbor
  import opened CborSkip
  import opened ZcborState
  import opened MapTable

  /** The elements an open container can still count down. */
  ghost predicate Counting(zsd: State, left: Option<nat>, start: nat)
    reads zsd
  {
    && start <= zsd.payload && zsd.Valid() && (zsd.indefinite <==> left.None?)
    && (left.None? ==> zsd.elemCount >= LARGE_ELEM_COUNT - (zsd.payload - start))
    && (left.Some? ==> zsd.elemCount == left.value)
  }

  /** `zcbor_tstr_decode`. */
  method TstrDecode(zsd: State) returns (ok: bool, text: seq<byte>)
    requires zsd.Valid() && zsd.elemCount > 0
    modifies zsd`payload, zsd`elemCount
    ensures zsd.Valid()
    ensures ok <==> ReadText(old(zsd.Rest())).Got?
    ensures ok ==> text == ReadText(old(zsd.Rest())).value && zsd.payload == old(zsd.payload) + ReadText(old(zsd.Rest())).length
    ensures zsd.elemCount == old(zsd.elemCount) - if ok then 1 else 0
    ensures !ok ==> zsd.payload == old(zsd.payload)
  {
    hide ReadHead;
    ghost var rest := zsd.Rest();
    ok, text := false, [];
    var payload, elemCount := zsd.payload, zsd.elemCount;
    if zsd.payload == |zsd.buf| || Major(zsd.buf[zsd.payload]) != 3 {
      return;
    }
    var n;
    ok, n := zsd.ValueExtract(4);
    if ok {
      if n > |zsd.buf| - zsd.payload {
        zsd.payload, zsd.elemCount := payload, elemCount;
        ok := false;
      } else {
        text := zsd.buf[zsd.payload..zsd.payload + n];
        SliceLater(zsd.buf, payload, zsd.payload, n);
        zsd.payload := zsd.payload + n;
      }
    }
  }

  lemma SliceLater(buf: seq<byte>, from: nat, at: nat, n: nat)
    requires from <= at && at + n <= |buf|
    ensures buf[at..at + n] == buf[from..][at - from..at - from + n]
  {
  }

  /** `zcbor_uint32_decode`. */
  method Uint32Decode(zsd: State) returns (ok: bool, n: nat)
    requires zsd.Valid() && zsd.elemCount > 0
    modifies zsd`payload, zsd`elemCount
    ensures zsd.Valid()
    ensures ok <==> ReadUint32(old(zsd.Rest())).Got?
    ensures ok ==> n == ReadUint32(old(zsd.Rest())).value && zsd.payload == old(zsd.payload) + ReadUint32(old(zsd.Rest())).length
    ensures zsd.elemCount == old(zsd.elemCount) - if ok then 1 else 0
    ensures !ok ==> zsd.payload == old(zsd.payload)
  {
    hide ReadHead;
    ok, n := false, 0;
    if zsd.payload < |zsd.buf| && Major(zsd.buf[zsd.payload]) == 0 {
      ok, n := zsd.ValueExtract(4);
    }
  }

  /** `zcbor_int64_decode`. */
  method Int64Decode(zsd: State) returns (ok: bool, n: int)
    requires zsd.Valid() && zsd.elemCount > 0
    modifies zsd`payload, zsd`elemCount
    ensures zsd.Valid()
    ensures ok <==> ReadInt64(old(zsd.Rest())).Got?
    ensures ok ==> n == ReadInt64(old(zsd.Rest())).value && zsd.payload == old(zsd.payload) + ReadInt64(old(zsd.Rest())).length
    ensures zsd.elemCount == old(zsd.elemCount) - if ok then 1 else 0
    ensures !ok ==> zsd.payload == old(zsd.payload)
  {
    hide ReadHead;
    ok, n := false, 0;
    if zsd.payload == |zsd.buf| || Major(zsd.buf[zsd.payload]) > 1 {
      return;
    }
    var payload, elemCount := zsd.payload, zsd.elemCount;
    var negative := Major(zsd.buf[zsd.payload]) == 1;
    var value;
    ok, value := zsd.ValueExtract(8);
    if ok && value >= HALF64 {
      zsd.payload, zsd.elemCount := payload, elemCount;
      ok := false;
    } else if ok {
      n := if negative then -1 - value else value;
    }
  }

  /** `zcbor_map_start_decode` and `zcbor_list_start_decode`: on success the cursor counts the container's elements. */
  method StartDecode(zsd: State, major: nat) returns (ok: bool, ghost count: Option<nat>)
    requires zsd.Valid() && zsd.elemCount > 0 && (major == 4 || major == 5)
    modifies zsd
    ensures zsd.Valid()
    ensures ok <==> ReadStart(old(zsd.Rest()), major).Got?
    ensures ok ==> count == ReadStart(old(zsd.Rest()), major).value
    ensures ok ==> zsd.payload == old(zsd.payload) + ReadStart(old(zsd.Rest()), major).length
    ensures ok ==> Counting(zsd, count, zsd.payload)
    ensures !ok ==> zsd.payload == old(zsd.payload) && zsd.elemCount == old(zsd.elemCount)
    ensures !ok ==> zsd.indefinite == old(zsd.indefinite)
  {
    ok, count := false, None;
    if zsd.payload == |zsd.buf| || Major(zsd.buf[zsd.payload]) != major {
      return;
    }
    if zsd.buf[zsd.payload] % 32 == 31 {
      zsd.payload := zsd.payload + 1;
      zsd.elemCount, zsd.indefinite := LARGE_ELEM_COUNT, true;
      return true, None;
    }
    var payload, elemCount := zsd.payload, zsd.elemCount;
    ShortHead(zsd.Rest());
    var n;
    ok, n := zsd.ValueExtract(4);
    if !ok {
      return;
    }
    if major == 5 && n >= HALF32 {
      zsd.payload, zsd.elemCount := payload, elemCount;
      return false, None;
    }
    zsd.elemCount, zsd.indefinite := if major == 5 then 2 * n else n, false;
    count := Some(zsd.elemCount);
  }

  lemma ShortHead(s: seq<byte>)
    ensures ReadHead(s, 4).Some? ==> ReadHead(s, 4).value.0 < MOD32
  {
    hide ReadHead;
    if ReadHead(s, 4).Some? {
      var w := HeadWritten(s, 4);
      FourIsBelow(w, ReadHead(s, 4).value.0);
    }
  }

  /** `zcbor_map_key_decode`, which looks at the next byte before it knows there is one. */
  method KeyDecode(zsd: State) returns (ok: bool, key: Key)
    requires zsd.Valid() && zsd.elemCount > 0
    modifies zsd`payload, zsd`elemCount
    ensures zsd.Valid()
    ensures ok <==> ReadKey(old(zsd.Rest())).Got?
    ensures ok ==> key == ReadKey(old(zsd.Rest())).value && zsd.payload == old(zsd.payload) + ReadKey(old(zsd.Rest())).length
    ensures zsd.elemCount == old(zsd.elemCount) - if ok then 1 else 0
  {
    key := U32Key(0);
    ok := false;
    var major := Major(zsd.Peek());
    if major == 3 {
      var text;
      ok, text := TstrDecode(zsd);
      if ok {
        key := TstrKey(text);
      }
    } else if major == 0 {
      var n;
      ok, n := Uint32Decode(zsd);
      if ok {
        key := U32Key(n);
      }
    }
  }

  /** `zcbor_list_or_map_end`. */
  predicate AtContainerEnd(zsd: State)
    reads zsd
  {
    if zsd.indefinite then zsd.Peek() == BREAK else zsd.elemCount == 0
  }

  /** `params_decode`: the cursor is copied at the start of the list, then moved past it. */
  method ParamsDecode(zsd: State) returns (ok: bool, value: Value)
    requires zsd.Valid() && zsd.elemCount > 0
    modifies zsd
    ensures zsd.Valid()
    ensures ok <==> ReadValue(Params, old(zsd.Rest()), old(zsd.payload)).Got?
    ensures ok ==>
      && value == ReadValue(Params, old(zsd.Rest()), old(zsd.payload)).value
      && zsd.payload == old(zsd.payload) + ReadValue(Params, old(zsd.Rest()), old(zsd.payload)).length
      && zsd.elemCount == old(zsd.elemCount) - 1 && zsd.indefinite == old(zsd.indefinite)
  {
    hide SkipMany, SkipToBreak, SkipItem, ReadStart, ReadHead;
    var elemCount, indefinite := zsd.elemCount, zsd.indefinite;
    ghost var rest := zsd.Rest();
    ghost var count;
    value := Number(0);
    ok, count := StartDecode(zsd, 4);
    if !ok {
      return;
    }
    value := ListAt(zsd.payload, if zsd.indefinite then None else Some(zsd.elemCount));
    assert zsd.Rest() == rest[ReadStart(rest, 4).length..];
    ok := SkipToEnd(zsd, count);
    if ok {
      zsd.elemCount, zsd.indefinite := elemCount - 1, indefinite;
    }
  }

  /** The elements left of a container that was announced with `count`. */
  ghost function StillCounted(zsd: State, count: Option<nat>): Option<nat>
    reads zsd
  {
    if count.None? then None else
      var left: nat := zsd.elemCount;
      Some(left)
  }

  /** The loop of `params_decode` over the list's elements, and the list's end. */
  method SkipToEnd(zsd: State, ghost count: Option<nat>) returns (ok: bool)
    requires Counting(zsd, count, zsd.payload)
    modifies zsd`payload, zsd`elemCount
    ensures zsd.Valid()
    ensures ok <==> SkipRest(old(zsd.Rest()), count).Some?
    ensures ok ==> zsd.payload == old(zsd.payload) + SkipRest(old(zsd.Rest()), count).value
  {
    hide SkipItem, SkipMany, SkipToBreak;
    while !AtContainerEnd(zsd)
      invariant Counting(zsd, StillCounted(zsd, count), old(zsd.payload))
      invariant count.Some? ==> zsd.elemCount <= count.value
      invariant SkipRest(old(zsd.Rest()), count) ==
        Plus(zsd.payload - old(zsd.payload), SkipRest(zsd.Rest(), StillCounted(zsd, count)))
      decreases |zsd.buf| - zsd.payload
    {
      ghost var rest := zsd.Rest();
      ElementCases(rest, zsd.elemCount);
      ok := zsd.AnySkip();
      if !ok {
        return;
      }
      assert zsd.Rest() == rest[SkipItem(rest, true).value..];
    }
    ElementCases(zsd.Rest(), zsd.elemCount);
    if zsd.indefinite {
      if zsd.payload == |zsd.buf| {
        return false;
      }
      zsd.payload := zsd.payload + 1;
    }
    return true;
  }

  /** The callback of an entry. */
  method ValueDecode(zsd: State, d: Decoder) returns (ok: bool, value: Value)
    requires zsd.Valid() && zsd.elemCount > 0
    modifies zsd
    ensures zsd.Valid()
    ensures ok <==> ReadValue(d, old(zsd.Rest()), old(zsd.payload)).Got?
    ensures ok ==>
      && value == ReadValue(d, old(zsd.Rest()), old(zsd.payload)).value
      && zsd.payload == old(zsd.payload) + ReadValue(d, old(zsd.Rest()), old(zsd.payload)).length
      && zsd.elemCount == old(zsd.elemCount) - 1 && zsd.indefinite == old(zsd.indefinite)
  {
    hide ReadInt64, ReadText, SkipRest, ReadStart;
    value := Number(0);
    match d
    case Int64 =>
      var n;
      ok, n := Int64Decode(zsd);
      value := Number(n);
    case Tstr =>
      var text;
      ok, text := TstrDecode(zsd);
      value := String(text);
    case Params =>
      ok, value := ParamsDecode(zsd);
  }

  /** `zcbor_map_decode`; `ended` is what the forced end of the map returns when it is reached. */
  method MapDecode(zsd: State, entries: seq<Entry>, outs: array<Option<Value>>, ended: bool) returns (err: int)
    requires zsd.Valid() && zsd.elemCount > 0 && outs.Length == |entries|
    modifies zsd, outs
    ensures var r := DecodeMap(old(zsd.Rest()), old(zsd.payload), zsd.past, entries, old(outs[..]));
      outs[..] == r.1 && err == if ended then r.0 else -EBADMSG
  {
    hide MapLoop, ReadStart;
    ghost var rest := zsd.Rest();
    ghost var count;
    var ok;
    ok, count := StartDecode(zsd, 5);
    if !ok {
      return -EBADMSG;
    }
    assert zsd.Rest() == rest[ReadStart(rest, 5).length..];
    err := DecodePairs(zsd, entries, outs, Pairs(count), zsd.payload);
    if (err == 0 || err == -ENOENT) && !ended {
      err := -EBADMSG;
    }
  }

  ghost function Twice(left: Option<nat>): Option<nat>
  {
    if left.None? then None else Some(2 * left.value)
  }

  /** One pair of the map: its error, and whether its key was wanted. */
  method PairDecode(zsd: State, entries: seq<Entry>, outs: array<Option<Value>>, ghost left: Option<nat>, ghost start: nat,
                    ghost found: nat)
    returns (err: int, wanted: bool)
    requires Counting(zsd, Twice(left), start) && outs.Length == |entries|
    requires found < |entries| && !AtContainerEnd(zsd)
    modifies zsd, outs
    ensures err == 0 || err == -EBADMSG
    ensures var r := MapLoop(old(zsd.Rest()), old(zsd.payload), zsd.past, left, entries, old(outs[..]), found);
      if err == 0 then
        && left != Some(0) && Counting(zsd, Twice(OneLess(left)), start) && old(zsd.payload) < zsd.payload
        && r == MapLoop(zsd.Rest(), zsd.payload, zsd.past, OneLess(left), entries, outs[..], if wanted then found + 1 else found)
      else r == (err, outs[..])
  {
    hide MapLoop, ReadKey, ReadValue, SkipItem, ReadHead;
    ghost var before, pos, so := zsd.Rest(), zsd.payload, outs[..];
    LoopCases(before, pos, zsd.past, left, entries, so, found);
    wanted := false;
    var ok, key := KeyDecode(zsd);
    if !ok {
      return -EBADMSG, false;
    }
    RestLater(zsd.buf, pos, zsd.payload);
    var i := FindEntry(entries, key);
    if i < |entries| {
      var value;
      ok, value := ValueDecode(zsd, entries[i].decoder);
      if !ok {
        return -EBADMSG, false;
      }
      outs[i] := Some(value);
      wanted := true;
      assert outs[..] == so[i := Some(value)];
    } else {
      ok := zsd.AnySkip();
      if !ok {
        return -EBADMSG, false;
      }
    }
    RestLater(zsd.buf, pos, zsd.payload);
    err := 0;
  }

  /** The loop of `zcbor_map_decode`. */
  method DecodePairs(zsd: State, entries: seq<Entry>, outs: array<Option<Value>>, ghost pairs: Option<nat>, ghost start: nat)
    returns (err: int)
    requires Counting(zsd, Twice(pairs), start) && outs.Length == |entries|
    modifies zsd, outs
    ensures err == 0 || err == -ENOENT || err == -EBADMSG
    ensures (err, outs[..]) ==
      MapLoop(old(zsd.Rest()), old(zsd.payload), zsd.past, pairs, entries, old(outs[..]), 0)
  {
    hide MapLoop;
    var numDecoded := 0;
    ghost var left := pairs;
    while numDecoded < |entries| && !AtContainerEnd(zsd)
      invariant Counting(zsd, Twice(left), start)
      invariant MapLoop(old(zsd.Rest()), old(zsd.payload), zsd.past, pairs, entries, old(outs[..]), 0) ==
        MapLoop(zsd.Rest(), zsd.payload, zsd.past, left, entries, outs[..], numDecoded)
      decreases |zsd.buf| - zsd.payload
    {
      var wanted;
      err, wanted := PairDecode(zsd, entries, outs, left, start, numDecoded);
      if err != 0 {
        return;
      }
      left := OneLess(left);
      if wanted {
        numDecoded := numDecoded + 1;
      }
    }
    LoopCases(zsd.Rest(), zsd.payload, zsd.past, left, entries, outs[..], numDecoded);
    err := if numDecoded == 0 then -ENOENT else if numDecoded < |entries| then -EBADMSG else 0;
  }
}
