/** What a log message becomes on the wire (logging/log_backend_golioth.c): a CBOR map of key-value pairs. */
module LogRecord {
  import opened Common
  import opened Cbor
  import opened CborSkip
  import opened CborWrite
  import opened MapTable
  import opened MapLookup

  /** The parts of a log message. `source` is the name of its module, `package` what the formatter makes of it, `hasFunc`
      whether its level is one of those that get the function's name as a prefix. */
  datatype Record = Record(level: nat, hasFunc: bool, uptime: nat, source: Option<seq<byte>>,
                           package: Option<seq<byte>>, dump: seq<byte>)

  // "uptime", "module", "level", "index", "func", "msg" and "hexdump" in ASCII.
  const UPTIME: seq<byte> := [117, 112, 116, 105, 109, 101]
  const MODULE: seq<byte> := [109, 111, 100, 117, 108, 101]
  const LEVEL: seq<byte> := [108, 101, 118, 101, 108]
  const INDEX: seq<byte> := [105, 110, 100, 101, 120]
  const FUNC: seq<byte> := [102, 117, 110, 99]
  const MSG: seq<byte> := [109, 115, 103]
  const HEXDUMP: seq<byte> := [104, 101, 120, 100, 117, 109, 112]

  const COLON: byte := 58
  const CBOR_SPACE_RESERVED: nat := 8

  /** `level_str`: "error", "warn", "info" or "debug". */
  function LevelText(level: nat): seq<byte>
  {
    match level
    case 1 => [101, 114, 114, 111, 114]
    case 2 => [119, 97, 114, 110]
    case 3 => [105, 110, 102, 111]
    case _ => [100, 101, 98, 117, 103]
  }

  function TextPair(key: seq<byte>, value: Item): Pair
  {
    Pair(TextItem(key), value)
  }

  /** The module's name and the level; raw strings, of level 0, have neither. */
  function Labels(r: Record): seq<Pair>
  {
    (if r.level != 0 && r.source.Some? then [TextPair(MODULE, TextItem(r.source.value))] else [])
    + (if r.level != 0 then [TextPair(LEVEL, TextItem(LevelText(r.level)))] else [])
  }

  function HeaderPairs(r: Record, index: uint32): seq<Pair>
  {
    [TextPair(UPTIME, UintItem(r.uptime))] + Labels(r) + [TextPair(INDEX, UintItem(index))]
  }

  // ----- The text

  function FirstColon(text: seq<byte>): (k: nat)
    ensures k <= |text| && COLON !in text[..k]
    ensures k < |text| ==> text[k] == COLON
  {
    if text == [] || text[0] == COLON then 0 else
      var k := 1 + FirstColon(text[1..]);
      assert text[..k] == [text[0]] + text[1..][..k - 1];
      k
  }

  /** The pairs the text is split into; `None` when the colon that ends the function's name is the last byte. */
  function MessagePairs(text: seq<byte>, hasFunc: bool): Option<seq<Pair>>
  {
    var k := FirstColon(text);
    if !hasFunc || k == |text| then Some([TextPair(MSG, TextItem(text))])
    else if k + 2 > |text| then None
    else Some([TextPair(FUNC, TextItem(text[..k])), TextPair(MSG, TextItem(text[k + 2..]))])
  }

  /** What fits of a text. */
  function Stored(text: seq<byte>, room: nat): (s: seq<byte>)
    ensures |s| <= room && s <= text
    ensures |s| == room || s == text
  {
    text[..if |text| < room then |text| else room]
  }

  /** How far ahead of the write cursor the text is formatted. */
  function Reserved(hasFunc: bool): nat
  {
    if hasFunc then 2 * CBOR_SPACE_RESERVED + 6 else CBOR_SPACE_RESERVED
  }

  // ----- Pairs in a buffer

  ghost predicate AllSound(pairs: seq<Pair>)
  {
    forall p :: p in pairs ==> SoundPair(p)
  }

  /** The bytes of a map that is still open. */
  function Opened(pairs: seq<Pair>): (s: seq<byte>)
    requires AllSound(pairs)
    ensures |s| >= 1
  {
    [0xBF] + EncodePairs(pairs)
  }

  function PairSize(p: Pair): nat
    requires SoundPair(p)
  {
    |Encode(p.key)| + |Encode(p.value)|
  }

  /** The pairs for the text when this much of the buffer is left; `None` when the reserve is not. */
  function TextPairs(package: Option<seq<byte>>, hasFunc: bool, room: int): Option<seq<Pair>>
  {
    if package.None? then Some([])
    else if Reserved(hasFunc) > room then None
    else MessagePairs(Stored(package.value, room - Reserved(hasFunc)), hasFunc)
  }

  /** The pair for the hexdump when this much of the buffer is left. */
  function DumpPairs(dump: seq<byte>, room: int): Option<seq<Pair>>
  {
    if dump == [] then Some([])
    else if 8 + CBOR_SPACE_RESERVED > room then None
    else Some([TextPair(HEXDUMP, BytesItem(Stored(dump, room - 8 - CBOR_SPACE_RESERVED)))])
  }

  // ----- Sizes and soundness

  lemma SmallText(s: seq<byte>)
    requires |s| < 0x1_0000
    ensures Sound(TextItem(s), true) && 1 + |s| <= |Encode(TextItem(s))| <= 3 + |s|
    ensures Encode(TextItem(s)) == Head(3, WidthFor(|s|), |s|) + s
  {
    TextSound(s);
  }

  lemma SmallBytes(s: seq<byte>)
    requires |s| < 0x1_0000
    ensures Sound(BytesItem(s), true) && 1 + |s| <= |Encode(BytesItem(s))| <= 3 + |s|
    ensures Encode(BytesItem(s)) == Head(2, WidthFor(|s|), |s|) + s
  {
    BytesSound(s);
  }

  lemma KeySize(key: seq<byte>)
    requires |key| < 24
    ensures Sound(TextItem(key), true) && |Encode(TextItem(key))| == 1 + |key|
    ensures KeyOf(TextItem(key)) == Some(TstrKey(key))
  {
    TextSound(key);
  }

  lemma {:induction false} EncodePairsAppend(pairs: seq<Pair>, p: Pair)
    requires AllSound(pairs) && SoundPair(p)
    ensures AllSound(pairs + [p])
    ensures EncodePairs(pairs + [p]) == EncodePairs(pairs) + Encode(p.key) + Encode(p.value)
  {
    hide Encode, Sound, KeyOf;
    if pairs == [] {
      assert [] + [p] == [p] && [p][1..] == [];
      assert EncodePairs([p]) == Encode(p.key) + Encode(p.value) + EncodePairs([]);
    } else {
      EncodePairsAppend(pairs[1..], p);
      assert (pairs + [p])[1..] == pairs[1..] + [p] && (pairs + [p])[0] == pairs[0];
    }
  }

  lemma OpenedAppend(pairs: seq<Pair>, p: Pair)
    requires AllSound(pairs) && SoundPair(p)
    ensures AllSound(pairs + [p])
    ensures Opened(pairs + [p]) == Opened(pairs) + Encode(p.key) + Encode(p.value)
  {
    hide Encode, SoundPair, EncodePairs;
    EncodePairsAppend(pairs, p);
  }

  lemma HeaderSound(r: Record, index: uint32)
    requires r.uptime < 2 * HALF64 && (r.source.Some? ==> |r.source.value| < 0x1_0000)
    ensures AllSound(HeaderPairs(r, index))
  {
    KeySize(UPTIME);
    KeySize(MODULE);
    KeySize(LEVEL);
    KeySize(INDEX);
    UintSound(r.uptime);
    UintSound(index);
    SmallText(LevelText(r.level));
    if r.source.Some? { SmallText(r.source.value); }
    hide Sound, TextItem, UintItem, KeyOf;
    assert SoundPair(TextPair(UPTIME, UintItem(r.uptime))) && SoundPair(TextPair(INDEX, UintItem(index)));
    assert SoundPair(TextPair(LEVEL, TextItem(LevelText(r.level))));
  }

  lemma MessageSound(text: seq<byte>, hasFunc: bool)
    requires |text| < 0x1_0000 && MessagePairs(text, hasFunc).Some?
    ensures AllSound(MessagePairs(text, hasFunc).value)
  {
    KeySize(FUNC);
    KeySize(MSG);
    SmallText(text);
    var k := FirstColon(text);
    if k + 2 <= |text| {
      SmallText(text[..k]);
      SmallText(text[k + 2..]);
    }
  }

  // ----- The finished map

  /** The pairs of the whole record, in a buffer of this capacity. */
  function FinalPairs(r: Record, index: uint32, capacity: nat): (pairs: Option<seq<Pair>>)
    requires AllSound(HeaderPairs(r, index)) && capacity < 0x1_0000
    ensures pairs.Some? ==> AllSound(pairs.value)
  {
    var header := HeaderPairs(r, index);
    match TextPairs(r.package, r.hasFunc, capacity - |Opened(header)|)
    case None => None
    case Some(text) =>
      TextPairsSound(r.package, r.hasFunc, capacity - |Opened(header)|);
      SoundConcat(header, text);
      match DumpPairs(r.dump, capacity - |Opened(header + text)|)
      case None => None
      case Some(dump) =>
        DumpPairsSound(r.dump, capacity - |Opened(header + text)|);
        SoundConcat(header + text, dump);
        Some(header + text + dump)
  }

  lemma SoundConcat(a: seq<Pair>, b: seq<Pair>)
    requires AllSound(a) && AllSound(b)
    ensures AllSound(a + b)
  {
  }

  lemma TextPairsSound(package: Option<seq<byte>>, hasFunc: bool, room: int)
    requires room < 0x1_0000
    ensures TextPairs(package, hasFunc, room).Some? ==> AllSound(TextPairs(package, hasFunc, room).value)
  {
    if TextPairs(package, hasFunc, room).Some? && package.Some? {
      MessageSound(Stored(package.value, room - Reserved(hasFunc)), hasFunc);
    }
  }

  lemma DumpPairsSound(dump: seq<byte>, room: int)
    requires room < 0x1_0000
    ensures DumpPairs(dump, room).Some? ==> AllSound(DumpPairs(dump, room).value)
  {
    if DumpPairs(dump, room).Some? && dump != [] {
      DumpSound(Stored(dump, room - 8 - CBOR_SPACE_RESERVED));
    }
  }

  lemma DumpSound(dump: seq<byte>)
    requires |dump| < 0x1_0000
    ensures SoundPair(TextPair(HEXDUMP, BytesItem(dump)))
  {
    KeySize(HEXDUMP);
    SmallBytes(dump);
  }

  /** Sorts the keys by their place in the map. */
  function Rank(p: Pair): int
  {
    if !p.key.Text? || p.key.data == [] || |p.key.data| == 7 then 0 else |p.key.data| * 256 + p.key.data[0]
  }

  /** Ranks fall from pair to pair, from below `high` to no less than `low`. */
  ghost predicate Descending(pairs: seq<Pair>, low: int, high: int)
  {
    && (forall i :: 0 <= i < |pairs| ==> low <= Rank(pairs[i]) < high && pairs[i].key.Text?)
    && forall i, j :: 0 <= i < j < |pairs| ==> Rank(pairs[i]) > Rank(pairs[j])
  }

  lemma Joined(a: seq<Pair>, b: seq<Pair>, low: int, middle: int, high: int)
    requires Descending(a, middle, high) && Descending(b, low, middle) && low <= middle <= high
    ensures Descending(a + b, low, high)
  {
    hide Rank;
  }

  lemma HeaderDescending(r: Record, index: uint32)
    ensures Descending(HeaderPairs(r, index), 1385, 1654)
  {
    hide WidthFor, LevelText, UintItem, Descending;
    var a := [TextPair(UPTIME, UintItem(r.uptime))];
    var b := if r.level != 0 && r.source.Some? then [TextPair(MODULE, TextItem(r.source.value))] else [];
    var c := if r.level != 0 then [TextPair(LEVEL, TextItem(LevelText(r.level)))] else [];
    var d := [TextPair(INDEX, UintItem(index))];
    OnePair(UPTIME, UintItem(r.uptime), 1646, 1654);
    if r.level != 0 && r.source.Some? { OnePair(MODULE, TextItem(r.source.value), 1389, 1646); } else { NoPairs(1389, 1646); }
    if r.level != 0 { OnePair(LEVEL, TextItem(LevelText(r.level)), 1386, 1389); } else { NoPairs(1386, 1389); }
    OnePair(INDEX, UintItem(index), 1385, 1386);
    Joined(b, c, 1386, 1389, 1646);
    Joined(a, b + c, 1386, 1646, 1654);
    Joined(a + (b + c), d, 1385, 1386, 1654);
  }

  lemma NoPairs(low: int, high: int)
    ensures Descending([], low, high)
  {
  }

  lemma OnePair(key: seq<byte>, value: Item, low: int, high: int)
    requires key != [] && low <= (if |key| == 7 then 0 else |key| * 256 + key[0]) < high
    ensures Descending([TextPair(key, value)], low, high)
  {
  }

  lemma MessageDescending(text: seq<byte>, hasFunc: bool)
    ensures MessagePairs(text, hasFunc).Some? ==> Descending(MessagePairs(text, hasFunc).value, 877, 1127)
  {
    hide Descending, WidthFor;
    var k := FirstColon(text);
    OnePair(MSG, TextItem(text), 877, 1127);
    if k + 2 <= |text| {
      OnePair(FUNC, TextItem(text[..k]), 1126, 1127);
      OnePair(MSG, TextItem(text[k + 2..]), 877, 1126);
      Joined([TextPair(FUNC, TextItem(text[..k]))], [TextPair(MSG, TextItem(text[k + 2..]))], 877, 1126, 1127);
      assert [TextPair(FUNC, TextItem(text[..k]))] + [TextPair(MSG, TextItem(text[k + 2..]))]
          == [TextPair(FUNC, TextItem(text[..k])), TextPair(MSG, TextItem(text[k + 2..]))];
    }
  }

  lemma FinalDescending(r: Record, index: uint32, capacity: nat)
    requires AllSound(HeaderPairs(r, index)) && capacity < 0x1_0000 && FinalPairs(r, index, capacity).Some?
    ensures Descending(FinalPairs(r, index, capacity).value, 0, 1654)
  {
    hide Opened, AllSound, HeaderPairs, MessagePairs, Descending, TextItem, BytesItem;
    var header := HeaderPairs(r, index);
    var room := capacity - |Opened(header)|;
    var text := TextPairs(r.package, r.hasFunc, room).value;
    HeaderDescending(r, index);
    Wider(header, 1385, 1127, 1654);
    NoPairs(877, 1127);
    if r.package.Some? {
      MessageDescending(Stored(r.package.value, room - Reserved(r.hasFunc)), r.hasFunc);
    }
    Joined(header, text, 877, 1127, 1654);
    TextPairsSound(r.package, r.hasFunc, room);
    SoundConcat(header, text);
    var dump := DumpPairs(r.dump, capacity - |Opened(header + text)|).value;
    NoPairs(0, 877);
    if r.dump != [] {
      OnePair(HEXDUMP, dump[0].value, 0, 877);
    }
    Joined(header + text, dump, 0, 877, 1654);
  }

  lemma Wider(pairs: seq<Pair>, low: int, lower: int, high: int)
    requires Descending(pairs, low, high) && lower <= low
    ensures Descending(pairs, lower, high)
  {
  }

  ghost predicate TextKeys(pairs: seq<Pair>)
  {
    forall p :: p in pairs ==> p.key.Text?
  }

  /** The keys of the record are distinct text. */
  lemma FinalGood(r: Record, index: uint32, capacity: nat)
    requires AllSound(HeaderPairs(r, index)) && capacity < 0x1_0000 && FinalPairs(r, index, capacity).Some?
    ensures GoodPairs(FinalPairs(r, index, capacity).value) && TextKeys(FinalPairs(r, index, capacity).value)
  {
    var pairs := FinalPairs(r, index, capacity).value;
    FinalDescending(r, index, capacity);
    hide FinalPairs, AllSound;
    DescendingGood(pairs);
  }

  lemma DescendingGood(pairs: seq<Pair>)
    requires AllSound(pairs) && Descending(pairs, 0, 1654)
    ensures GoodPairs(pairs) && TextKeys(pairs)
  {
    forall i, j | 0 <= i < j < |pairs|
      ensures KeyOf(pairs[i].key) != KeyOf(pairs[j].key)
    {
      assert Rank(pairs[i]) > Rank(pairs[j]);
      assert SoundPair(pairs[i]) && SoundPair(pairs[j]);
    }
  }

  /** The closed buffer is the encoding of the map. */
  lemma ClosedEncodes(pairs: seq<Pair>)
    requires AllSound(pairs)
    ensures Sound(MapItem(pairs, None), true) && Encode(MapItem(pairs, None)) == Opened(pairs) + [BREAK]
  {
    hide SoundPair;
    FlattenEncodes(pairs);
  }

  // ----- What a receiver gets

  /** Splitting at the first colon, seen from the outside: the function's name has no colon in it, and name, colon, the byte
      after it and message make up the text. So the text is split at its first ": " exactly when that byte is a space. */
  lemma SplitMeans(text: seq<byte>)
    requires |text| < 0x1_0000
    ensures MessagePairs(text, true).None? <==> COLON in text && COLON !in text[..|text| - 1]
    ensures COLON in text && COLON in text[..|text| - 1] ==>
      exists name, body, sep ::
        && MessagePairs(text, true) == Some([TextPair(FUNC, TextItem(name)), TextPair(MSG, TextItem(body))])
        && COLON !in name && text == name + [COLON, sep] + body
    ensures COLON !in text ==> MessagePairs(text, true) == Some([TextPair(MSG, TextItem(text))])
  {
    var k := FirstColon(text);
    if k < |text| {
      assert text[k] in text;
      if k + 1 < |text| {
        assert text[..|text| - 1][k] == COLON;
        assert text == text[..k] + [COLON, text[k + 1]] + text[k + 2..];
      } else {
        assert text[..k] == text[..|text| - 1];
      }
    } else {
      assert text[..k] == text;
    }
  }

  /** The one string at `key`, read back by the map decoder from the whole record. */
  lemma StringsDecode(pairs: seq<Pair>, at: seq<nat>, rest: seq<byte>, pos: nat, past: byte)
    requires GoodPairs(pairs) && AllSound(pairs) && TextKeys(pairs) && at != []
    requires forall i :: 0 <= i < |at| ==> at[i] < |pairs| && pairs[at[i]].key.Text? && Takes(Tstr, pairs[at[i]].value)
    requires forall i, j :: 0 <= i < j < |at| ==> at[i] != at[j]
    ensures Sound(MapItem(pairs, None), true)
    ensures var entries := Wanted(pairs, at);
      var r := DecodeMap(Encode(MapItem(pairs, None)) + rest, pos, past, entries, NoOutputs(|at|));
      r.0 == 0 && |r.1| == |at| && forall i :: 0 <= i < |at| ==> r.1[i] == Some(Meaning(Tstr, pairs[at[i]].value, 0))
  {
    hide Encode, Sound, DecodeMap, Opened;
    ClosedEncodes(pairs);
    var entries := Wanted(pairs, at);
    forall i | 0 <= i < |at|
      ensures Find(pairs, entries[i].key) == at[i]
    {
      assert SoundPair(pairs[at[i]]);
      FindAt(pairs, at[i], entries[i].key);
    }
    assert DistinctKeys(entries);
    assert forall i :: 0 <= i < |at| ==> Usable(pairs, entries[i]);
    assert entries[0] in entries;
    assert LookupResult(pairs, entries) == 0;
    MapDecodeIsLookup(pairs, None, rest, pos, past, entries);
  }

  function Wanted(pairs: seq<Pair>, at: seq<nat>): (entries: seq<Entry>)
    requires forall i :: 0 <= i < |at| ==> at[i] < |pairs| && pairs[at[i]].key.Text?
    ensures |entries| == |at|
  {
    seq(|at|, i requires 0 <= i < |at| => Entry(TstrKey(pairs[at[i]].key.data), Tstr))
  }

  /** What the text of a record is after formatting into a buffer of this capacity. */
  function StoredText(r: Record, index: uint32, capacity: nat): seq<byte>
    requires AllSound(HeaderPairs(r, index)) && r.package.Some?
    requires |Opened(HeaderPairs(r, index))| + Reserved(r.hasFunc) <= capacity
  {
    Stored(r.package.value, capacity - |Opened(HeaderPairs(r, index))| - Reserved(r.hasFunc))
  }

  lemma OneString(pairs: seq<Pair>, n: nat, key: seq<byte>, text: seq<byte>, rest: seq<byte>, pos: nat, past: byte)
    requires GoodPairs(pairs) && AllSound(pairs) && TextKeys(pairs) && n < |pairs| && |text| < 0x1_0000
    requires pairs[n] == TextPair(key, TextItem(text))
    ensures Sound(MapItem(pairs, None), true)
    ensures DecodeMap(Encode(MapItem(pairs, None)) + rest, pos, past, [Entry(TstrKey(key), Tstr)], NoOutputs(1))
         == (0, [Some(String(text))])
  {
    hide GoodPairs, AllSound, TextKeys, Encode, Sound, DecodeMap;
    StringsDecode(pairs, [n], rest, pos, past);
    assert Wanted(pairs, [n]) == [Entry(TstrKey(key), Tstr)];
    var r := DecodeMap(Encode(MapItem(pairs, None)) + rest, pos, past, [Entry(TstrKey(key), Tstr)], NoOutputs(1));
    assert r.1[0] == Some(String(text));
    assert r.1 == [Some(String(text))];
  }

  lemma TwoStrings(pairs: seq<Pair>, n: nat, key: seq<byte>, text: seq<byte>, key1: seq<byte>, text1: seq<byte>,
                   rest: seq<byte>, pos: nat, past: byte)
    requires GoodPairs(pairs) && AllSound(pairs) && TextKeys(pairs) && n + 1 < |pairs| && |text| < 0x1_0000 && |text1| < 0x1_0000
    requires pairs[n] == TextPair(key, TextItem(text)) && pairs[n + 1] == TextPair(key1, TextItem(text1))
    ensures Sound(MapItem(pairs, None), true)
    ensures DecodeMap(Encode(MapItem(pairs, None)) + rest, pos, past,
                      [Entry(TstrKey(key), Tstr), Entry(TstrKey(key1), Tstr)], NoOutputs(2))
         == (0, [Some(String(text)), Some(String(text1))])
  {
    hide GoodPairs, AllSound, TextKeys, Encode, Sound, DecodeMap;
    StringsDecode(pairs, [n, n + 1], rest, pos, past);
    assert Wanted(pairs, [n, n + 1]) == [Entry(TstrKey(key), Tstr), Entry(TstrKey(key1), Tstr)];
    var r := DecodeMap(Encode(MapItem(pairs, None)) + rest, pos, past,
                       [Entry(TstrKey(key), Tstr), Entry(TstrKey(key1), Tstr)], NoOutputs(2));
    assert r.1[0] == Some(String(text)) && r.1[1] == Some(String(text1));
    assert r.1 == [Some(String(text)), Some(String(text1))];
  }

  /** Where the text is among the pairs. */
  lemma TextPlace(r: Record, index: uint32, capacity: nat)
    requires AllSound(HeaderPairs(r, index)) && capacity < 0x1_0000 && FinalPairs(r, index, capacity).Some?
    requires r.package.Some?
    ensures |Opened(HeaderPairs(r, index))| + Reserved(r.hasFunc) <= capacity
    ensures var text := StoredText(r, index, capacity);
      var pairs, n, k := FinalPairs(r, index, capacity).value, |HeaderPairs(r, index)|, FirstColon(text);
      if !r.hasFunc || k == |text| then n < |pairs| && pairs[n] == TextPair(MSG, TextItem(text))
      else
        && k + 2 <= |text| && n + 1 < |pairs|
        && pairs[n] == TextPair(FUNC, TextItem(text[..k])) && pairs[n + 1] == TextPair(MSG, TextItem(text[k + 2..]))
  {
    hide AllSound, HeaderPairs, Opened, TextPair, TextItem, FirstColon, DumpPairs;
  }

  /** The keys of the headers, and the names of the levels. */
  lemma HeaderNames()
    ensures UPTIME == Ascii("uptime") && MODULE == Ascii("module") && LEVEL == Ascii("level") && INDEX == Ascii("index")
  {
  }

  lemma LevelNames()
    ensures LevelText(1) == Ascii("error") && LevelText(2) == Ascii("warn") && LevelText(3) == Ascii("info")
    ensures LevelText(4) == Ascii("debug")
  {
  }

  /** The keys of the text and the dump, and what splits the text. */
  lemma TextNames()
    ensures FUNC == Ascii("func") && MSG == Ascii("msg") && HEXDUMP == Ascii("hexdump") && [COLON] == Ascii(":")
  {
  }

  /** The map decoder finds this value at this key. */
  ghost predicate Finds(s: seq<byte>, pos: nat, past: byte, key: string, d: Decoder, value: Value)
  {
    DecodeMap(s, pos, past, [Entry(TstrKey(Ascii(key)), d)], NoOutputs(1)) == (0, [Some(value)])
  }

  lemma HeaderPlace(r: Record, index: uint32, capacity: nat)
    requires AllSound(HeaderPairs(r, index)) && capacity < 0x1_0000 && FinalPairs(r, index, capacity).Some?
    ensures var pairs := FinalPairs(r, index, capacity).value;
      && |pairs| >= 2 && pairs[0] == TextPair(UPTIME, UintItem(r.uptime))
      && (exists n :: 0 <= n < |pairs| && pairs[n] == TextPair(INDEX, UintItem(index)))
      && (r.level != 0 ==> exists n :: 0 <= n < |pairs| && pairs[n] == TextPair(LEVEL, TextItem(LevelText(r.level))))
      && (r.level != 0 && r.source.Some? ==>
            exists n :: 0 <= n < |pairs| && pairs[n] == TextPair(MODULE, TextItem(r.source.value)))
  {
    hide AllSound, TextPair, TextItem, UintItem, TextPairs, DumpPairs, Opened, LevelText;
    var header, pairs := HeaderPairs(r, index), FinalPairs(r, index, capacity).value;
    var k := |Labels(r)|;
    assert forall i :: 0 <= i < |header| ==> pairs[i] == header[i];
    assert header[k + 1] == TextPair(INDEX, UintItem(index));
    if r.level != 0 {
      assert header[k] == TextPair(LEVEL, TextItem(LevelText(r.level)));
      if r.source.Some? { assert header[1] == TextPair(MODULE, TextItem(r.source.value)); }
    }
  }

  /** The map decoder finds in the finished record the time, the index, and unless it is a raw string the level by its name and
      the module. */
  lemma HeaderDecodes(r: Record, index: uint32, capacity: nat, rest: seq<byte>, pos: nat, past: byte)
    requires AllSound(HeaderPairs(r, index)) && capacity < 0x1_0000 && FinalPairs(r, index, capacity).Some?
    requires r.uptime < HALF64 && (r.source.Some? ==> |r.source.value| < 0x1_0000)
    ensures Sound(MapItem(FinalPairs(r, index, capacity).value, None), true)
    ensures var s := Encode(MapItem(FinalPairs(r, index, capacity).value, None)) + rest;
      && Finds(s, pos, past, "uptime", Int64, Number(r.uptime))
      && Finds(s, pos, past, "index", Int64, Number(index))
      && (r.level == 1 ==> Finds(s, pos, past, "level", Tstr, String(Ascii("error"))))
      && (r.level == 2 ==> Finds(s, pos, past, "level", Tstr, String(Ascii("warn"))))
      && (r.level == 3 ==> Finds(s, pos, past, "level", Tstr, String(Ascii("info"))))
      && (r.level == 4 ==> Finds(s, pos, past, "level", Tstr, String(Ascii("debug"))))
      && (r.level != 0 && r.source.Some? ==> Finds(s, pos, past, "module", Tstr, String(r.source.value)))
  {
    hide AllSound, HeaderPairs, Opened, DecodeMap, Encode, Sound, FinalPairs, GoodPairs, NoOutputs, MapItem, TextPair, TextItem,
      UintItem, TextKeys, Ascii, LevelText;
    HeaderNames();
    LevelNames();
    FinalGood(r, index, capacity);
    HeaderPlace(r, index, capacity);
    var pairs := FinalPairs(r, index, capacity).value;
    ClosedEncodes(pairs);
    OneNumber(pairs, 0, UPTIME, r.uptime, rest, pos, past);
    var i :| 0 <= i < |pairs| && pairs[i] == TextPair(INDEX, UintItem(index));
    OneNumber(pairs, i, INDEX, index, rest, pos, past);
    if r.level != 0 {
      var l :| 0 <= l < |pairs| && pairs[l] == TextPair(LEVEL, TextItem(LevelText(r.level)));
      assert |LevelText(r.level)| <= 5 by { LevelShort(r.level); }
      OneString(pairs, l, LEVEL, LevelText(r.level), rest, pos, past);
      if r.source.Some? {
        var m :| 0 <= m < |pairs| && pairs[m] == TextPair(MODULE, TextItem(r.source.value));
        OneString(pairs, m, MODULE, r.source.value, rest, pos, past);
      }
    }
  }

  lemma LevelShort(level: nat)
    ensures |LevelText(level)| <= 5
  {
  }

  lemma OneNumber(pairs: seq<Pair>, n: nat, key: seq<byte>, value: nat, rest: seq<byte>, pos: nat, past: byte)
    requires GoodPairs(pairs) && AllSound(pairs) && TextKeys(pairs) && n < |pairs| && value < HALF64
    requires pairs[n] == TextPair(key, UintItem(value))
    ensures Sound(MapItem(pairs, None), true)
    ensures DecodeMap(Encode(MapItem(pairs, None)) + rest, pos, past, [Entry(TstrKey(key), Int64)], NoOutputs(1))
         == (0, [Some(Number(value))])
  {
    hide GoodPairs, Encode, Sound, DecodeMap, Opened;
    ClosedEncodes(pairs);
    assert SoundPair(pairs[n]);
    assert KeyOf(pairs[n].key) == Some(TstrKey(key));
    OneLookedUp(pairs, None, n, Int64, rest, pos, past);
  }

  /** The map decoder finds in the finished record exactly the stored text: as the message, or split at its first colon into
      function and message. */
  lemma TextDecodes(r: Record, index: uint32, capacity: nat, rest: seq<byte>, pos: nat, past: byte)
    requires AllSound(HeaderPairs(r, index)) && capacity < 0x1_0000 && FinalPairs(r, index, capacity).Some?
    requires r.package.Some?
    ensures |Opened(HeaderPairs(r, index))| + Reserved(r.hasFunc) <= capacity
    ensures Sound(MapItem(FinalPairs(r, index, capacity).value, None), true)
    ensures var text := StoredText(r, index, capacity);
      var s := Encode(MapItem(FinalPairs(r, index, capacity).value, None)) + rest;
      var msg, func := Entry(TstrKey(Ascii("msg")), Tstr), Entry(TstrKey(Ascii("func")), Tstr);
      var k := FirstColon(text);
      if !r.hasFunc || k == |text| then
        DecodeMap(s, pos, past, [msg], NoOutputs(1)) == (0, [Some(String(text))])
      else
        && k + 2 <= |text|
        && DecodeMap(s, pos, past, [func, msg], NoOutputs(2)) == (0, [Some(String(text[..k])), Some(String(text[k + 2..]))])
  {
    hide AllSound, TextKeys, HeaderPairs, Opened, DecodeMap, Encode, Sound, FinalPairs, GoodPairs, NoOutputs, MapItem, TextPair, TextItem;
    TextNames();
    FinalGood(r, index, capacity);
    TextPlace(r, index, capacity);
    var pairs, n := FinalPairs(r, index, capacity).value, |HeaderPairs(r, index)|;
    var text := StoredText(r, index, capacity);
    var k := FirstColon(text);
    if !r.hasFunc || k == |text| {
      OneString(pairs, n, MSG, text, rest, pos, past);
    } else {
      TwoStrings(pairs, n, FUNC, text[..k], MSG, text[k + 2..], rest, pos, past);
    }
  }

  /** A text is stored whole when there is room for it and 22 bytes more, 8 without a function's name; the record then lacks room for
      nothing, unless the name's colon ends the text. */
  lemma ShortTextStored(r: Record, index: uint32, capacity: nat)
    requires AllSound(HeaderPairs(r, index)) && capacity < 0x1_0000 && r.package.Some? && r.dump == []
    requires |Opened(HeaderPairs(r, index))| + |r.package.value| + (if r.hasFunc then 22 else 8) <= capacity
    ensures |Opened(HeaderPairs(r, index))| + Reserved(r.hasFunc) <= capacity
    ensures StoredText(r, index, capacity) == r.package.value
    ensures FinalPairs(r, index, capacity) ==
      match MessagePairs(r.package.value, r.hasFunc) case None => None case Some(text) => Some(HeaderPairs(r, index) + text)
  {
    hide AllSound, HeaderPairs, Opened, MessagePairs;
    assert Stored(r.package.value, capacity - |Opened(HeaderPairs(r, index))| - Reserved(r.hasFunc)) == r.package.value;
    if MessagePairs(r.package.value, r.hasFunc).Some? {
      var all := HeaderPairs(r, index) + MessagePairs(r.package.value, r.hasFunc).value;
      assert all + [] == all;
    }
  }

  /** A hexdump is the last pair: as much of the data as there is room for but for 16 bytes, so all of it when that is enough. */
  lemma DumpIsLast(r: Record, index: uint32, capacity: nat)
    requires AllSound(HeaderPairs(r, index)) && capacity < 0x1_0000 && FinalPairs(r, index, capacity).Some? && r.dump != []
    ensures var pairs := FinalPairs(r, index, capacity).value;
      && pairs != [] && AllSound(pairs[..|pairs| - 1]) && pairs[|pairs| - 1].key == TextItem(Ascii("hexdump"))
      && pairs[|pairs| - 1].value.Bytes? && pairs[|pairs| - 1].value.data <= r.dump
      && var room := capacity - |Opened(pairs[..|pairs| - 1])| - 16;
         room >= 0 && |pairs[|pairs| - 1].value.data| == if |r.dump| <= room then |r.dump| else room
  {
    hide AllSound, HeaderPairs, TextPairs, Ascii, EncodePairs;
    TextNames();
    var header, pairs := HeaderPairs(r, index), FinalPairs(r, index, capacity).value;
    var room := capacity - |Opened(header)|;
    var text := TextPairs(r.package, r.hasFunc, room).value;
    TextPairsSound(r.package, r.hasFunc, room);
    SoundConcat(header, text);
    assert pairs[..|pairs| - 1] == header + text;
  }

  /** The break that ends the map always has room behind a text or a hexdump. */
  lemma CloseFits(r: Record, index: uint32, capacity: nat)
    requires AllSound(HeaderPairs(r, index)) && capacity < 0x1_0000 && FinalPairs(r, index, capacity).Some?
    requires r.package.Some? || r.dump != []
    ensures |Opened(FinalPairs(r, index, capacity).value)| + 1 <= capacity
  {
    hide AllSound, HeaderPairs, SoundPair, Encode, Sound;
    var header := HeaderPairs(r, index);
    var room := capacity - |Opened(header)|;
    var text := TextPairs(r.package, r.hasFunc, room).value;
    TextPairsSound(r.package, r.hasFunc, room);
    SoundConcat(header, text);
    if r.package.Some? {
      TextSize(header, Stored(r.package.value, room - Reserved(r.hasFunc)), r.hasFunc);
    }
    var room1 := capacity - |Opened(header + text)|;
    if r.dump != [] {
      DumpSize(header + text, Stored(r.dump, room1 - 8 - CBOR_SPACE_RESERVED));
    } else {
      assert header + text + [] == header + text;
    }
  }

  lemma TextSize(pairs: seq<Pair>, text: seq<byte>, hasFunc: bool)
    requires AllSound(pairs) && |text| < 0x1_0000 && MessagePairs(text, hasFunc).Some?
    ensures AllSound(pairs + MessagePairs(text, hasFunc).value)
    ensures |Opened(pairs + MessagePairs(text, hasFunc).value)| < |Opened(pairs)| + Reserved(hasFunc) + |text|
  {
    hide AllSound, Opened, Encode, SoundPair;
    var k := FirstColon(text);
    if !hasFunc || k == |text| {
      LabelSize(pairs, MSG, text);
    } else {
      LabelSize(pairs, FUNC, text[..k]);
      var func, msg := TextPair(FUNC, TextItem(text[..k])), TextPair(MSG, TextItem(text[k + 2..]));
      LabelSize(pairs + [func], MSG, text[k + 2..]);
      assert pairs + [func] + [msg] == pairs + [func, msg];
    }
  }

  lemma LabelSize(pairs: seq<Pair>, key: seq<byte>, text: seq<byte>)
    requires AllSound(pairs) && |key| < 24 && |text| < 0x1_0000
    ensures AllSound(pairs + [TextPair(key, TextItem(text))])
    ensures |Opened(pairs + [TextPair(key, TextItem(text))])| <= |Opened(pairs)| + |key| + 4 + |text|
  {
    hide Opened, Encode;
    KeySize(key);
    SmallText(text);
    OpenedAppend(pairs, TextPair(key, TextItem(text)));
  }

  lemma DumpSize(pairs: seq<Pair>, dump: seq<byte>)
    requires AllSound(pairs) && |dump| < 0x1_0000
    ensures AllSound(pairs + [TextPair(HEXDUMP, BytesItem(dump))])
    ensures |Opened(pairs + [TextPair(HEXDUMP, BytesItem(dump))])| <= |Opened(pairs)| + 11 + |dump|
  {
    hide Opened, Encode;
    DumpSound(dump);
    KeySize(HEXDUMP);
    SmallBytes(dump);
    OpenedAppend(pairs, TextPair(HEXDUMP, BytesItem(dump)));
  }

  /** What encoding a record must give: whenever the headers fit, success exactly when the text's reserve and the rest fit and the
      function's name does not end the text, and then the encoding of the map of all pairs. */
  ghost predicate Encoded(r: Record, index: uint32, capacity: nat, err: int, written: seq<byte>)
    requires AllSound(HeaderPairs(r, index)) && capacity < 0x1_0000
  {
    |Opened(HeaderPairs(r, index))| <= capacity ==>
      var final := FinalPairs(r, index, capacity);
      && (err == 0 <==> final.Some? && |Opened(final.value)| + 1 <= capacity)
      && (err == 0 ==> Sound(MapItem(final.value, None), true) && written == Encode(MapItem(final.value, None)))
  }
}
