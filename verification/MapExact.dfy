/** What `zcbor_map_decode` has read when it does not call the message bad: a map header and whole pairs, enough of them wanted or
    none. */
module MapExact {
  import opened Common
  import opened Cbor
  import opened CborSkip
  import opened MapTable
  import opened MapLookup
  import opened MapPast

  /** Whether an entry wants the pair. */
  predicate Wanted(p: Pair, entries: seq<Entry>)
  {
    exists e :: e in entries && KeyOf(p.key) == Some(e.key)
  }

  function WantedPairs(pairs: seq<Pair>, entries: seq<Entry>): nat
  {
    if pairs == [] then 0 else (if Wanted(pairs[0], entries) then 1 else 0) + WantedPairs(pairs[1..], entries)
  }

  /** The bytes are a map header, whole pairs with readable keys, and whatever follows. */
  ghost predicate StartsWithPairs(s: seq<byte>, h: nat, pairs: seq<Pair>, tail: seq<byte>)
  {
    && (forall p :: p in pairs ==> SoundPair(p))
    && 1 <= h <= |s| && s[0] / 32 == 5 && s[h..] == EncodePairs(pairs) + tail
    && ((h == 1 && s[0] == 0xBF) || exists w, n :: w != Eight && Fits(w, n) && |pairs| <= n && s[..h] == Head(5, w, n))
  }

  /** A value that a callback takes is an item that could be skipped. */
  lemma ValueSkips(d: Decoder, s: seq<byte>, pos: nat)
    requires ReadValue(d, s, pos).Got?
    ensures SkipItem(s, true) == Some(ReadValue(d, s, pos).length)
  {
    hide SkipMany, SkipToBreak, FromBigEndian, Fits, Head;
    assert s[0..] == s;
    if d.Params? && s[0] % 32 != 31 {
      var w := HeadWritten(s, 4);
      FourIsBelow(w, ReadHead(s, 4).value.0);
    }
  }

  lemma {:induction false} LoopTakes(s: seq<byte>, pos: nat, past: byte, left: Option<nat>, entries: seq<Entry>, outs: Outputs,
                                     found: nat)
    returns (pairs: seq<Pair>, tail: seq<byte>)
    requires |outs| == |entries| && MapLoop(s, pos, past, left, entries, outs, found).0 != -EBADMSG
    ensures (forall p :: p in pairs ==> SoundPair(p)) && s == EncodePairs(pairs) + tail
    ensures left.Some? ==> |pairs| <= left.value
    ensures MapLoop(s, pos, past, left, entries, outs, found).0 == Verdict(found + WantedPairs(pairs, entries), |entries|)
    decreases |s|
  {
    hide MapLoop, ReadKey, ReadValue, SkipItem, SkipRest, Encode, Sound, KeyOf, EncodePairs, Wanted;
    LoopCases(s, pos, past, left, entries, outs, found);
    if found >= |entries| || AtMapEnd(s, past, left) {
      pairs, tail := [], s;
      NothingEncoded();
      assert [] + s == s;
    } else {
      var k := ReadKey(s).length;
      var i := FindEntry(entries, ReadKey(s).value);
      var more;
      if i < |entries| {
        var v := ReadValue(entries[i].decoder, s[k..], pos + k);
        ValueSkips(entries[i].decoder, s[k..], pos + k);
        more, tail := LoopTakes(s[k + v.length..], pos + k + v.length, past, OneLess(left), entries, outs[i := Some(v.value)], found + 1);
      } else {
        var n := SkipItem(s[k..], true).value;
        more, tail := LoopTakes(s[k + n..], pos + k + n, past, OneLess(left), entries, outs, found);
      }
      pairs := PairTaken(s, more, tail, entries);
    }
  }

  lemma NothingEncoded()
    ensures EncodePairs([]) == []
  {
  }

  /** A key and an item in front of more pairs. */
  lemma PairTaken(s: seq<byte>, more: seq<Pair>, tail: seq<byte>, entries: seq<Entry>) returns (pairs: seq<Pair>)
    requires ReadKey(s).Got? && SkipItem(s[ReadKey(s).length..], true).Some? && forall p :: p in more ==> SoundPair(p)
    requires var k := ReadKey(s).length; s[k + SkipItem(s[k..], true).value..] == EncodePairs(more) + tail
    ensures (forall p :: p in pairs ==> SoundPair(p)) && s == EncodePairs(pairs) + tail && |pairs| == |more| + 1
    ensures WantedPairs(pairs, entries)
      == WantedPairs(more, entries) + if FindEntry(entries, ReadKey(s).value) < |entries| then 1 else 0
  {
    hide ReadKey, SkipItem, Encode, Sound, EncodePairs;
    var k := ReadKey(s).length;
    var n := SkipItem(s[k..], true).value;
    var key := KeyWritten(s);
    var value := SkippedIsItem(s[k..]);
    var p := Pair(key, value);
    pairs := [p] + more;
    PairsCons(p, more, []);
    assert s == s[..k] + s[k..][..n] + s[k + n..];
    assert s[..k] + s[k..][..n] + (EncodePairs(more) + tail) == (s[..k] + s[k..][..n] + EncodePairs(more)) + tail;
    assert pairs[1..] == more;
    WantedIsFound(p, ReadKey(s).value, entries);
  }

  lemma WantedIsFound(p: Pair, key: Key, entries: seq<Entry>)
    requires KeyOf(p.key) == Some(key)
    ensures Wanted(p, entries) <==> FindEntry(entries, key) < |entries|
  {
    hide KeyOf;
    var i := FindEntry(entries, key);
    if i < |entries| { assert entries[i] in entries; }
  }

  /** Enough were found, or none. */
  predicate Tells(err: int, found: nat, wanted: nat)
  {
    if err == 0 then found > 0 && found >= wanted else err == -2 && found == 0
  }

  /** Whatever the bytes: the decoder returns 0, -ENOENT or -EBADMSG. Unless it is -EBADMSG it has read a map header and whole pairs, of
      which it wants as many as there are entries, and then returns 0, or none, and then -ENOENT. */
  lemma DecodesOnlyMaps(s: seq<byte>, pos: nat, past: byte, entries: seq<Entry>, outs: Outputs)
    requires |outs| == |entries|
    ensures var err := DecodeMap(s, pos, past, entries, outs).0;
      err == -74 || exists h, pairs, tail :: StartsWithPairs(s, h, pairs, tail) && Tells(err, WantedPairs(pairs, entries), |entries|)
  {
    hide MapLoop, ReadHead, EncodePairs, WantedPairs, Fits, Head, FindEntry, SoundPair;
    if DecodeMap(s, pos, past, entries, outs).0 != -74 {
      var (count, h) := (ReadStart(s, 5).value, ReadStart(s, 5).length);
      var pairs, tail := LoopTakes(s[h..], pos + h, past, Pairs(count), entries, outs, 0);
      if count.Some? {
        var w := HeadWritten(s, 4);
        assert s[..h] == Head(5, w, ReadHead(s, 4).value.0);
      }
      assert StartsWithPairs(s, h, pairs, tail);
    }
  }
}
