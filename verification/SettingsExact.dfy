/** When `settings_decode` succeeds: exactly on well-formed maps with text labels, whatever follows them. */
module SettingsExact {
  import opened Common
  import opened Cbor
  import opened CborSkip
  import opened MapTable
  import opened MapLookup
  import opened MapPast
  import opened Settings

  /** The bytes start with the map of these pairs. */
  ghost predicate StartsWithMap(s: seq<byte>, pairs: seq<Pair>, w: Option<Width>, rest: seq<byte>)
  {
    && Settable(pairs) && w != Some(Eight) && Sound(MapItem(pairs, w), true)
    && s == Encode(MapItem(pairs, w)) + rest
  }

  // ----- What the loop takes

  /** A setting that is read is an item that could be skipped. */
  lemma SettingSkips(s: seq<byte>)
    requires ReadSetting(s).Got?
    ensures SkipItem(s, true) == Some(ReadSetting(s).length)
  {
    hide SkipMany, SkipToBreak, FromBigEndian;
    assert s[0..] == s;
  }

  lemma {:induction false} LoopTakesPairs(s: seq<byte>, past: byte, left: Option<nat>, handler: Handler, out: Outcome)
    returns (pairs: seq<Pair>, tail: seq<byte>)
    requires SettingsLoop(s, past, left, handler, out).0 == 0
    ensures Settable(pairs) && s == EncodePairs(pairs) + tail
    ensures if left.Some? then |pairs| == left.value else tail != [] && tail[0] == BREAK
    decreases |s|
  {
    hide SettingsLoop, ReadText, ReadSetting, SkipItem, KeyFor, Apply, Reject, Encode, Sound, KeyOf, EncodePairs;
    SettingsCases(s, past, left, handler, out);
    if AtMapEnd(s, past, left) {
      pairs, tail := [], s;
      NoPairsEncode();
      assert [] + s == s;
    } else {
      var k := ReadText(s).length;
      var key, v := KeyFor(ReadText(s).value), ReadSetting(s[k..]);
      var more;
      if v.Got? {
        SettingSkips(s[k..]);
        more, tail := LoopTakesPairs(s[k + v.length..], past, OneLess(left), handler, Apply(out, Update(key, v.value), handler));
      } else {
        more, tail := LoopTakesPairs(s[k + SkipItem(s[k..], true).value..], past, OneLess(left), handler, Reject(out, key));
      }
      pairs := OnePairMore(s, more, tail);
    }
  }

  lemma NoPairsEncode()
    ensures EncodePairs([]) == []
  {
  }

  /** A label and an item in front of more pairs. */
  lemma OnePairMore(s: seq<byte>, more: seq<Pair>, tail: seq<byte>) returns (pairs: seq<Pair>)
    requires ReadText(s).Got? && SkipItem(s[ReadText(s).length..], true).Some? && Settable(more)
    requires var k := ReadText(s).length; s[k + SkipItem(s[k..], true).value..] == EncodePairs(more) + tail
    ensures Settable(pairs) && s == EncodePairs(pairs) + tail && |pairs| == |more| + 1
  {
    hide ReadText, SkipItem, Encode, Sound, EncodePairs;
    var k := ReadText(s).length;
    var n := SkipItem(s[k..], true).value;
    var key := KeyWritten(s);
    var value := SkippedIsItem(s[k..]);
    var p := Pair(key, value);
    pairs := [p] + more;
    PairsCons(p, more, []);
    assert s == s[..k] + s[k..][..n] + s[k + n..];
    assert s[..k] + s[k..][..n] + (EncodePairs(more) + tail) == (s[..k] + s[k..][..n] + EncodePairs(more)) + tail;
  }

  // ----- The whole map

  lemma {:induction false} DecodedIsMap(s: seq<byte>, past: byte, handler: Handler)
    returns (pairs: seq<Pair>, w: Option<Width>, rest: seq<byte>)
    requires DecodeAll(s, past, handler).0 == 0
    ensures StartsWithMap(s, pairs, w, rest)
  {
    hide SettingsLoop, ReadHead, EncodePairs, Flatten, SoundPair, Head, Fits;
    var (count, h) := (ReadStart(s, 5).value, ReadStart(s, 5).length);
    var tail;
    pairs, tail := LoopTakesPairs(s[h..], past, Pairs(count), handler, Outcome([], []));
    FlattenEncodes(pairs);
    if count.None? {
      w, rest := None, tail[1..];
      assert s == [0xBF] + EncodePairs(pairs) + [BREAK] + rest;
    } else {
      var width := HeadWritten(s, 4);
      w, rest := Some(width), tail;
      assert s == s[..h] + EncodePairs(pairs) + rest;
    }
  }

  /** Decoding settings succeeds if and only if the message starts with a well-formed map with text labels, and has no settings if and
      only if it starts with a null; anything else is a bad message. */
  lemma SettingsDecodeExactly(s: seq<byte>, past: byte, handler: Handler)
    ensures var err := DecodeAll(s, past, handler).0;
      && (err == 0 <==> exists pairs, w, rest :: StartsWithMap(s, pairs, w, rest))
      && (err == -2 <==> s != [] && s[0] == 0xF6)
      && (err != 0 && err != -2 ==> err == -74)
  {
    hide Encode, Sound, SettingsLoop, ReadStart, MapItem, Settable;
    LoopErrors(s, past, handler);
    if exists pairs, w, rest :: StartsWithMap(s, pairs, w, rest) {
      var pairs, w, rest :| StartsWithMap(s, pairs, w, rest);
      SettingsConserved(pairs, w, rest, past, handler);
    }
    if DecodeAll(s, past, handler).0 == 0 {
      var pairs, w, rest := DecodedIsMap(s, past, handler);
    }
  }

  lemma LoopErrors(s: seq<byte>, past: byte, handler: Handler)
    ensures var err := DecodeAll(s, past, handler).0;
      (err == 0 || err == -2 || err == -74) && (err == -2 <==> s != [] && s[0] == 0xF6)
  {
    hide SettingsLoop;
    if ReadStart(s, 5).Got? {
      LoopError(s[ReadStart(s, 5).length..], past, Pairs(ReadStart(s, 5).value), handler, Outcome([], []));
    }
  }

  lemma {:induction false} LoopError(s: seq<byte>, past: byte, left: Option<nat>, handler: Handler, out: Outcome)
    ensures SettingsLoop(s, past, left, handler, out).0 == 0 || SettingsLoop(s, past, left, handler, out).0 == -74
    decreases |s|
  {
    hide SettingsLoop, ReadText, ReadSetting, SkipItem, KeyFor, Apply, Reject;
    SettingsCases(s, past, left, handler, out);
    if !AtMapEnd(s, past, left) && ReadText(s).Got? {
      var k := ReadText(s).length;
      var key, v := KeyFor(ReadText(s).value), ReadSetting(s[k..]);
      if v.Got? {
        LoopError(s[k + v.length..], past, OneLess(left), handler, Apply(out, Update(key, v.value), handler));
      } else if SkipItem(s[k..], true).Some? {
        LoopError(s[k + SkipItem(s[k..], true).value..], past, OneLess(left), handler, Reject(out, key));
      }
    }
  }
}
