/** What the byte behind the payload does to the decoders: `zcbor_list_or_map_end` reads it when an unfinished map of indefinite
    length ends there. */
module MapPast {
  import opened Common
  import opened Cbor
  import opened CborSkip
  import opened MapTable
  import opened MapLookup
  import opened Settings

  /** Pairs whose keys are readable, none of them wanted. */
  ghost predicate NoneWanted(pairs: seq<Pair>, entries: seq<Entry>)
  {
    forall p :: p in pairs ==> SoundPair(p) && forall e :: e in entries ==> KeyOf(p.key) != Some(e.key)
  }

  /** The bytes are whole pairs, none of them wanted, and nothing else. */
  ghost predicate OnlyUnwanted(s: seq<byte>, entries: seq<Entry>)
  {
    exists pairs :: NoneWanted(pairs, entries) && s == EncodePairs(pairs)
  }

  /** A key that was read is the encoding of an item with that key. */
  lemma KeyWritten(s: seq<byte>) returns (i: Item)
    requires ReadKey(s).Got?
    ensures Sound(i, true) && KeyOf(i) == Some(ReadKey(s).value) && Encode(i) == s[..ReadKey(s).length]
  {
    hide ReadHead, Head, Fits;
    var w := HeadWritten(s, 4);
    var (n, h) := ReadHead(s, 4).value;
    assert w != Eight;
    if Major(s[0]) == 3 {
      i := Item.Text(w, s[h..h + n]);
      assert s[..h + n] == s[..h] + s[h..h + n];
    } else {
      i := UInt(w, n);
    }
  }

  lemma PairsCons(p: Pair, more: seq<Pair>, entries: seq<Entry>)
    requires NoneWanted(more, entries) && SoundPair(p) && forall e :: e in entries ==> KeyOf(p.key) != Some(e.key)
    ensures NoneWanted([p] + more, entries)
    ensures EncodePairs([p] + more) == Encode(p.key) + Encode(p.value) + EncodePairs(more)
  {
    hide Encode, Sound, KeyOf;
    assert ([p] + more)[1..] == more;
  }

  lemma NothingIsUnwanted(entries: seq<Entry>)
    ensures OnlyUnwanted([], entries)
  {
    assert NoneWanted([], entries) && EncodePairs([]) == [];
  }

  /** Taking one unwanted pair off the front. */
  lemma {:induction false} UnwantedPair(s: seq<byte>, entries: seq<Entry>)
    requires s != []
    ensures OnlyUnwanted(s, entries) <==>
      && s[0] != BREAK && ReadKey(s).Got?
      && var k := ReadKey(s).length;
         && FindEntry(entries, ReadKey(s).value) == |entries| && SkipItem(s[k..], true).Some?
         && OnlyUnwanted(s[k + SkipItem(s[k..], true).value..], entries)
  {
    hide ReadKey, SkipItem, OnlyUnwanted, Encode, Sound, KeyOf;
    if OnlyUnwanted(s, entries) {
      UnwantedFirst(s, entries);
    }
    if s[0] != BREAK && ReadKey(s).Got? {
      var k := ReadKey(s).length;
      if FindEntry(entries, ReadKey(s).value) == |entries| && SkipItem(s[k..], true).Some? {
        var n := SkipItem(s[k..], true).value;
        if OnlyUnwanted(s[k + n..], entries) {
          UnwantedMore(s, k, n, entries);
        }
      }
    }
  }

  lemma {:induction false} UnwantedFirst(s: seq<byte>, entries: seq<Entry>)
    requires s != [] && OnlyUnwanted(s, entries)
    ensures s[0] != BREAK && ReadKey(s).Got? && FindEntry(entries, ReadKey(s).value) == |entries|
    ensures var k := ReadKey(s).length;
      SkipItem(s[k..], true).Some? && OnlyUnwanted(s[k + SkipItem(s[k..], true).value..], entries)
  {
    hide ReadKey, SkipItem, Encode, Sound, KeyOf;
    var pairs :| NoneWanted(pairs, entries) && s == EncodePairs(pairs);
    var p, more := pairs[0], pairs[1..];
    assert p in pairs && SoundPair(p);
    var key, value, rest := Encode(p.key), Encode(p.value), EncodePairs(more);
    assert s == key + (value + rest);
    KeyRead(p.key, value + rest);
    SkipEncode(p.value, rest);
    assert s[|key|..] == value + rest && s[|key| + |value|..] == rest;
    assert NoneWanted(more, entries);
  }

  lemma {:induction false} UnwantedMore(s: seq<byte>, k: nat, n: nat, entries: seq<Entry>)
    requires ReadKey(s).Got? && k == ReadKey(s).length && FindEntry(entries, ReadKey(s).value) == |entries|
    requires SkipItem(s[k..], true) == Some(n) && OnlyUnwanted(s[k + n..], entries)
    ensures OnlyUnwanted(s, entries)
  {
    hide ReadKey, SkipItem, Encode, Sound, KeyOf;
    var more :| NoneWanted(more, entries) && s[k + n..] == EncodePairs(more);
    var key := KeyWritten(s);
    var value := SkippedIsItem(s[k..]);
    var p := Pair(key, value);
    PairsCons(p, more, entries);
    assert s == s[..k] + s[k..][..n] + s[k + n..];
  }

  lemma {:induction false} LoopPast(s: seq<byte>, pos: nat, p: byte, q: byte, left: Option<nat>, entries: seq<Entry>,
                                    outs: Outputs, found: nat)
    requires |outs| == |entries|
    ensures MapLoop(s, pos, p, left, entries, outs, found) != MapLoop(s, pos, q, left, entries, outs, found) <==>
      (p == BREAK) != (q == BREAK) && left.None? && found == 0 && entries != [] && OnlyUnwanted(s, entries)
    decreases |s|
  {
    hide MapLoop, ReadKey, ReadValue, SkipItem, OnlyUnwanted;
    LoopCases(s, pos, p, left, entries, outs, found);
    LoopCases(s, pos, q, left, entries, outs, found);
    if s == [] {
      NothingIsUnwanted(entries);
      NothingRead();
    } else {
      UnwantedPair(s, entries);
      if found < |entries| && !AtMapEnd(s, p, left) && ReadKey(s).Got? {
        var k := ReadKey(s).length;
        var i := FindEntry(entries, ReadKey(s).value);
        var v := if i < |entries| then ReadValue(entries[i].decoder, s[k..], pos + k) else Failed;
        if i < |entries| && v.Got? {
          LoopPast(s[k + v.length..], pos + k + v.length, p, q, OneLess(left), entries, outs[i := Some(v.value)], found + 1);
        } else if i == |entries| && SkipItem(s[k..], true).Some? {
          var n := SkipItem(s[k..], true).value;
          LoopPast(s[k + n..], pos + k + n, p, q, OneLess(left), entries, outs, found);
        }
      }
    }
  }

  lemma NothingRead()
    ensures ReadKey([]) == Failed && ReadText([]) == Failed
  {
  }

  /** The decoder's result depends on the byte behind the payload exactly when the payload is the start of a map of indefinite
      length and whole pairs of which none is wanted, without the break. */
  lemma PastByteMatters(s: seq<byte>, pos: nat, p: byte, q: byte, entries: seq<Entry>, outs: Outputs)
    requires |outs| == |entries|
    ensures DecodeMap(s, pos, p, entries, outs) != DecodeMap(s, pos, q, entries, outs) <==>
      (p == BREAK) != (q == BREAK) && entries != [] && s != [] && s[0] == 0xBF && OnlyUnwanted(s[1..], entries)
  {
    hide MapLoop, OnlyUnwanted, ReadHead;
    if ReadStart(s, 5).Got? {
      var (count, h) := (ReadStart(s, 5).value, ReadStart(s, 5).length);
      LoopPast(s[h..], pos + h, p, q, Pairs(count), entries, outs, 0);
    }
  }

  /** An opened map and nothing else: no entry if the byte behind it happens to be a break, a bad message otherwise. */
  lemma OpenedAndCut(e: Entry, outs: Outputs)
    requires |outs| == 1
    ensures DecodeMap([0xBF], 0, BREAK, [e], outs).0 == -2
    ensures DecodeMap([0xBF], 0, 0, [e], outs).0 == -74
  {
    NothingRead();
    assert [0xBF][1..] == [];
  }

  /** The settings decoder reads that byte too, to no effect. */
  lemma {:induction false} SettingsIgnorePast(s: seq<byte>, p: byte, q: byte, left: Option<nat>, handler: Handler, out: Outcome)
    ensures SettingsLoop(s, p, left, handler, out) == SettingsLoop(s, q, left, handler, out)
    decreases |s|
  {
    hide SettingsLoop, ReadText, ReadSetting, SkipItem, KeyFor, Apply, Reject;
    SettingsCases(s, p, left, handler, out);
    SettingsCases(s, q, left, handler, out);
    NothingRead();
    if !AtMapEnd(s, p, left) && !AtMapEnd(s, q, left) && ReadText(s).Got? {
      var k := ReadText(s).length;
      var key, v := KeyFor(ReadText(s).value), ReadSetting(s[k..]);
      if v.Got? {
        SettingsIgnorePast(s[k + v.length..], p, q, OneLess(left), handler, Apply(out, Update(key, v.value), handler));
      } else if SkipItem(s[k..], true).Some? {
        SettingsIgnorePast(s[k + SkipItem(s[k..], true).value..], p, q, OneLess(left), handler, Reject(out, key));
      }
    }
  }
}
