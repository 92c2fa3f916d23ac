/** Decoding a map with a table of wanted keys is looking those keys up, whatever the order of the pairs and whatever
    unknown pairs lie between them. */
module MapLookup {
  import opened Common
  import opened Cbor
  import opened CborSkip
  import opened MapTable
  import opened ZcborState

  // ----- What a value means to a callback

  /** The values a callback takes: integers of 64 bits, text, lists; lengths and counts of up to 32 bits. */
  predicate Takes(d: Decoder, i: Item)
  {
    match d
    case Int64 => (i.UInt? || i.NInt?) && i.value < HALF64
    case Tstr => i.Text? && i.width != Eight
    case Params => (i.List? && i.width != Eight) || i.OpenList?
  }

  /** The value stored for `i`, encoded at offset `pos`. */
  function Meaning(d: Decoder, i: Item, pos: nat): Value
    requires Takes(d, i)
  {
    match d
    case Int64 => Number(if i.UInt? then i.value else -1 - i.value)
    case Tstr => String(i.data)
    case Params => if i.List? then ListAt(pos + 1 + Size(i.width), Some(|i.items|)) else ListAt(pos + 1, None)
  }

  /** The first byte of an encoding. */
  lemma FirstByte(i: Item, rest: seq<byte>)
    requires Sound(i, true)
    ensures var s := Encode(i) + rest;
      && (Major(s[0]) == (match i
                         case UInt(_, _) => 0 case NInt(_, _) => 1 case Bytes(_, _) => 2 case Text(_, _) => 3
                         case List(_, _, _) => 4 case Map(_, _, _) => 5 case Tag(_, _, _) => 6 case Simple(_, _) => 7
                         case OpenList(_) => 4 case OpenMap(_) => 5))
      && (s[0] % 32 == 31 <==> i.OpenList? || i.OpenMap?)
  {
    hide EncodeAll;
  }

  lemma HeadOf(major: nat, w: Width, n: nat, content: seq<byte>, rest: seq<byte>, limit: nat)
    requires major < 8 && Fits(w, n)
    ensures var s := Head(major, w, n) + content + rest;
      && Major(s[0]) == major && s[0] % 32 != 31
      && ReadHead(s, limit) == (if Size(w) <= limit then Some((n, 1 + Size(w))) else None)
      && s[1 + Size(w)..] == content + rest
  {
    assert Head(major, w, n) + content + rest == Head(major, w, n) + (content + rest);
    HeadRead(major, w, n, content + rest, limit);
  }

  lemma TextRead(i: Item, rest: seq<byte>)
    requires Sound(i, true)
    ensures ReadText(Encode(i) + rest) == if Takes(Tstr, i) then Got(i.data, |Encode(i)|) else Failed
  {
    hide Head, EncodeAll;
    FirstByte(i, rest);
    if i.Text? {
      HeadOf(3, i.width, |i.data|, i.data, rest, 4);
      var s := Encode(i) + rest;
      var h := 1 + Size(i.width);
      assert s[h..h + |i.data|] == s[h..][..|i.data|] == i.data;
    }
  }

  lemma IntRead(i: Item, rest: seq<byte>)
    requires Sound(i, true)
    ensures ReadInt64(Encode(i) + rest) ==
      if Takes(Int64, i) then Got(if i.UInt? then i.value else -1 - i.value, |Encode(i)|) else Failed
  {
    hide Encode, Sound, ReadInt64, ReadHead;
    var s := Encode(i) + rest;
    FirstByte(i, rest);
    if i.UInt? || i.NInt? { NumberHead(i, rest); }
    IntCases(s);
  }

  lemma Uint32Read(i: Item, rest: seq<byte>)
    requires Sound(i, true)
    ensures ReadUint32(Encode(i) + rest) == if i.UInt? && i.width != Eight then Got(i.value, |Encode(i)|) else Failed
  {
    hide Encode, Sound, ReadUint32, ReadHead;
    var s := Encode(i) + rest;
    FirstByte(i, rest);
    if i.UInt? { NumberHead(i, rest); }
    Uint32Cases(s);
  }

  lemma NumberHead(i: Item, rest: seq<byte>)
    requires Sound(i, true) && (i.UInt? || i.NInt?)
    ensures |Encode(i)| == 1 + Size(i.width)
    ensures ReadHead(Encode(i) + rest, 8) == Some((i.value, |Encode(i)|))
    ensures ReadHead(Encode(i) + rest, 4) == if i.width != Eight then Some((i.value, |Encode(i)|)) else None
  {
    hide ReadHead, Head;
    HeadRead(if i.UInt? then 0 else 1, i.width, i.value, rest, 8);
    HeadRead(if i.UInt? then 0 else 1, i.width, i.value, rest, 4);
  }

  lemma IntCases(s: seq<byte>)
    requires s != []
    ensures ReadInt64(s) ==
      if Major(s[0]) > 1 || ReadHead(s, 8).None? || ReadHead(s, 8).value.0 >= HALF64 then Failed
      else Got(if Major(s[0]) == 0 then ReadHead(s, 8).value.0 else -1 - ReadHead(s, 8).value.0, ReadHead(s, 8).value.1)
  {
    hide ReadHead;
  }

  lemma Uint32Cases(s: seq<byte>)
    requires s != []
    ensures ReadUint32(s) == if Major(s[0]) != 0 || ReadHead(s, 4).None? then Failed
      else Got(ReadHead(s, 4).value.0, ReadHead(s, 4).value.1)
  {
    hide ReadHead;
  }

  lemma ListRead(i: Item, rest: seq<byte>, pos: nat)
    requires Sound(i, true)
    ensures ReadValue(Params, Encode(i) + rest, pos) ==
      if Takes(Params, i) then Got(Meaning(Params, i, pos), |Encode(i)|) else Failed
  {
    hide Head, EncodeAll, SkipMany, SkipToBreak, ReadHead;
    FirstByte(i, rest);
    var s := Encode(i) + rest;
    if i.List? {
      HeadOf(4, i.width, i.count, EncodeAll(i.items), rest, 4);
      if i.width != Eight {
        FourIsBelow(i.width, i.count);
        SkipAll(i.items, rest);
      }
    } else if i.OpenList? {
      SkipOpen(i.items, rest);
      assert s[1..] == EncodeAll(i.items) + [BREAK] + rest;
    }
  }

  /** A callback takes exactly the values it should, whole, and consumes exactly their encoding. */
  lemma ValueRead(d: Decoder, i: Item, rest: seq<byte>, pos: nat)
    requires Sound(i, true)
    ensures ReadValue(d, Encode(i) + rest, pos) ==
      if Takes(d, i) then Got(Meaning(d, i, pos), |Encode(i)|) else Failed
  {
    match d
    case Int64 => IntRead(i, rest);
    case Tstr => TextRead(i, rest);
    case Params => ListRead(i, rest, pos);
  }

  // ----- Keys

  /** The keys the decoder reads: text, and numbers of 32 bits. */
  function KeyOf(i: Item): Option<Key>
  {
    if i.Text? && i.width != Eight then Some(TstrKey(i.data))
    else if i.UInt? && i.width != Eight then Some(U32Key(i.value))
    else None
  }

  lemma KeyRead(i: Item, rest: seq<byte>)
    requires Sound(i, true)
    ensures ReadKey(Encode(i) + rest) == match KeyOf(i) case None => Failed case Some(key) => Got(key, |Encode(i)|)
  {
    hide Encode, Sound, ReadText, ReadUint32;
    TextRead(i, rest);
    Uint32Read(i, rest);
  }

  // ----- Maps as pairs

  datatype Pair = Pair(key: Item, value: Item)

  function Flatten(pairs: seq<Pair>): (items: seq<Item>)
    ensures |items| == 2 * |pairs|
  {
    if pairs == [] then [] else [pairs[0].key, pairs[0].value] + Flatten(pairs[1..])
  }

  predicate SoundPair(p: Pair)
  {
    Sound(p.key, true) && Sound(p.value, true) && KeyOf(p.key).Some?
  }

  /** Well-formed pairs whose keys are readable and distinct. */
  ghost predicate GoodPairs(pairs: seq<Pair>)
  {
    && (forall p :: p in pairs ==> SoundPair(p))
    && (forall i, j :: 0 <= i < j < |pairs| ==> KeyOf(pairs[i].key) != KeyOf(pairs[j].key))
  }

  /** All keys, those of the map and the wanted ones, are text, or all are numbers. */
  ghost predicate OneKind(pairs: seq<Pair>, entries: seq<Entry>)
  {
    || ((forall p :: p in pairs ==> p.key.Text?) && forall e :: e in entries ==> e.key.TstrKey?)
    || ((forall p :: p in pairs ==> p.key.UInt?) && forall e :: e in entries ==> e.key.U32Key?)
  }

  ghost predicate DistinctKeys(entries: seq<Entry>)
  {
    forall i, j :: 0 <= i < j < |entries| ==> entries[i].key != entries[j].key
  }

  /** The bytes of the pairs. */
  function EncodePairs(pairs: seq<Pair>): seq<byte>
    requires forall p :: p in pairs ==> SoundPair(p)
  {
    if pairs == [] then []
    else
      assert SoundPair(pairs[0]);
      Encode(pairs[0].key) + Encode(pairs[0].value) + EncodePairs(pairs[1..])
  }

  lemma {:induction false} FlattenEncodes(pairs: seq<Pair>)
    requires forall p :: p in pairs ==> SoundPair(p)
    ensures forall x :: x in Flatten(pairs) ==> Sound(x, true)
    ensures EncodeAll(Flatten(pairs)) == EncodePairs(pairs)
  {
    hide Encode, Sound;
    if pairs != [] {
      var p := pairs[0];
      var others := Flatten(pairs[1..]);
      FlattenEncodes(pairs[1..]);
      assert SoundPair(p);
      assert Flatten(pairs) == [p.key] + ([p.value] + others);
      EncodeCons(p.value, others);
      EncodeCons(p.key, [p.value] + others);
    }
  }

  // ----- Lookup

  /** Where `key` is among the pairs; their number when it is not. */
  function Find(pairs: seq<Pair>, key: Key): (i: nat)
    ensures i <= |pairs|
    ensures i < |pairs| ==> KeyOf(pairs[i].key) == Some(key)
    ensures forall j :: 0 <= j < i ==> KeyOf(pairs[j].key) != Some(key)
  {
    if pairs == [] || KeyOf(pairs[0].key) == Some(key) then 0 else 1 + Find(pairs[1..], key)
  }

  predicate Present(pairs: seq<Pair>, e: Entry)
  {
    Find(pairs, e.key) < |pairs|
  }

  /** `e` is present with a value its callback takes. */
  predicate Usable(pairs: seq<Pair>, e: Entry)
  {
    Present(pairs, e) && Takes(e.decoder, pairs[Find(pairs, e.key)].value)
  }

  /** What the result should be, by lookup alone: an unusable value or only some of the keys is a bad message, none of the keys
      is no entry. */
  ghost function LookupResult(pairs: seq<Pair>, entries: seq<Entry>): int
  {
    if exists e :: e in entries && Present(pairs, e) && !Usable(pairs, e) then -74
    else if forall e :: e in entries ==> !Present(pairs, e) then -2
    else if forall e :: e in entries ==> Present(pairs, e) then 0
    else -74
  }

  /** Where the value of each pair is, the first pair being at offset `base`. */
  function Places(pairs: seq<Pair>, base: nat): (places: seq<nat>)
    requires forall p :: p in pairs ==> SoundPair(p)
    ensures |places| == |pairs|
  {
    if pairs == [] then []
    else
      assert SoundPair(pairs[0]);
      var k, n := |Encode(pairs[0].key)|, |Encode(pairs[0].value)|;
      [base + k] + Places(pairs[1..], base + k + n)
  }

  lemma PairsUnfold(pairs: seq<Pair>, base: nat)
    requires pairs != [] && forall p :: p in pairs ==> SoundPair(p)
    ensures SoundPair(pairs[0]) && Sound(pairs[0].key, true) && Sound(pairs[0].value, true)
    ensures var key, value := Encode(pairs[0].key), Encode(pairs[0].value);
      && EncodePairs(pairs) == key + value + EncodePairs(pairs[1..])
      && Places(pairs, base) == [base + |key|] + Places(pairs[1..], base + |key| + |value|)
  {
    hide Encode, Sound, KeyOf;
    assert SoundPair(pairs[0]);
  }

  lemma NoPairs(pairs: seq<Pair>)
    requires pairs == []
    ensures EncodePairs(pairs) == []
  {
  }

  lemma FrontUnfold(pairs: seq<Pair>, p: nat)
    requires 0 < p < |pairs| && forall q :: q in pairs ==> SoundPair(q)
    ensures SoundPair(pairs[0])
    ensures var key, value := Encode(pairs[0].key), Encode(pairs[0].value);
      |EncodePairs(pairs[..p])| == |key| + |value| + |EncodePairs(pairs[1..][..p - 1])|
  {
    hide Encode, Sound, KeyOf;
    assert SoundPair(pairs[0]);
    var front := pairs[..p];
    assert front[1..] == pairs[1..][..p - 1] && front[0] == pairs[0];
    PairsUnfold(front, 0);
  }

  /** Behind the pairs before it and its key. */
  lemma {:induction false} PlacesMean(pairs: seq<Pair>, base: nat, p: nat)
    requires (forall q :: q in pairs ==> SoundPair(q)) && p < |pairs| && SoundPair(pairs[p])
    ensures Places(pairs, base)[p] == base + |EncodePairs(pairs[..p])| + |Encode(pairs[p].key)|
  {
    hide *;
    PairsUnfold(pairs, base);
    if p == 0 {
      NoPairs(pairs[..0]);
    } else {
      FrontUnfold(pairs, p);
      PlacesMean(pairs[1..], base + |Encode(pairs[0].key)| + |Encode(pairs[0].value)|, p - 1);
    }
  }

  /** The value's encoding starts there. */
  lemma {:induction false} PlacesHold(pairs: seq<Pair>, base: nat, p: nat)
    requires (forall q :: q in pairs ==> SoundPair(q)) && p < |pairs| && SoundPair(pairs[p])
    ensures var n := Places(pairs, base)[p] - base;
      0 <= n <= |EncodePairs(pairs)| && Encode(pairs[p].value) <= EncodePairs(pairs)[n..]
  {
    hide *;
    PairsUnfold(pairs, base);
    var key, value, more := Encode(pairs[0].key), Encode(pairs[0].value), EncodePairs(pairs[1..]);
    if p == 0 {
      Behind(key, value, more, 0);
    } else {
      PlacesHold(pairs[1..], base + |key| + |value|, p - 1);
      var n := Places(pairs[1..], base + |key| + |value|)[p - 1] - (base + |key| + |value|);
      Behind(key, value, more, n);
    }
  }

  lemma Behind(a: seq<byte>, b: seq<byte>, c: seq<byte>, n: nat)
    requires n <= |c|
    ensures (a + b + c)[|a| + |b| + n..] == c[n..] && (a + b + c)[|a|..] == b + c
  {
  }

  /** The output is the value of this item, encoded at `at`. */
  predicate IsMeaning(out: Option<Value>, d: Decoder, i: Item, at: nat)
  {
    Takes(d, i) && out == Some(Meaning(d, i, at))
  }

  /** Every output is the looked-up value. */
  ghost predicate LookedUp(pairs: seq<Pair>, places: seq<nat>, entries: seq<Entry>, outs: Outputs)
    requires |places| == |pairs|
  {
    && |outs| == |entries|
    && forall k :: 0 <= k < |entries| ==>
         && Present(pairs, entries[k])
         && IsMeaning(outs[k], entries[k].decoder, pairs[Find(pairs, entries[k].key)].value,
                      places[Find(pairs, entries[k].key)])
  }

  // ----- The loop

  /** How many outputs are set. */
  function Count(outs: Outputs): (n: nat)
    ensures n <= |outs|
  {
    if outs == [] then 0 else (if outs[0].Some? then 1 else 0) + Count(outs[1..])
  }

  lemma {:induction false} CountUpdate(outs: Outputs, i: nat, v: Value)
    requires i < |outs| && outs[i] == None
    ensures Count(outs[i := Some(v)]) == Count(outs) + 1
  {
    if i == 0 {
      assert outs[0 := Some(v)][1..] == outs[1..];
    } else {
      assert outs[i := Some(v)][1..] == outs[1..][i - 1 := Some(v)];
      CountUpdate(outs[1..], i - 1, v);
    }
  }

  lemma {:induction false} CountBounds(outs: Outputs)
    ensures Count(outs) == |outs| <==> forall k :: 0 <= k < |outs| ==> outs[k].Some?
    ensures Count(outs) == 0 <==> forall k :: 0 <= k < |outs| ==> outs[k].None?
  {
    if outs != [] {
      CountBounds(outs[1..]);
      assert forall k :: 1 <= k < |outs| ==> outs[k] == outs[1..][k - 1];
    }
  }

  /** After `p` pairs, exactly the entries whose key is among them are decoded, each to its value. */
  ghost predicate Progress(pairs: seq<Pair>, places: seq<nat>, p: nat, entries: seq<Entry>, outs: Outputs)
    requires |places| == |pairs|
  {
    && p <= |pairs| && |outs| == |entries|
    && forall k :: 0 <= k < |entries| ==>
         && (outs[k].Some? <==> Find(pairs, entries[k].key) < p)
         && (outs[k].Some? ==>
               && Present(pairs, entries[k])
               && IsMeaning(outs[k], entries[k].decoder, pairs[Find(pairs, entries[k].key)].value,
                      places[Find(pairs, entries[k].key)]))
  }

  ghost predicate Agrees(pairs: seq<Pair>, places: seq<nat>, entries: seq<Entry>, r: (int, Outputs))
    requires |places| == |pairs|
  {
    r.0 == LookupResult(pairs, entries) && (r.0 == 0 ==> LookedUp(pairs, places, entries, r.1))
  }

  /** The verdict when every entry is found or every pair seen. */
  lemma VerdictAgrees(pairs: seq<Pair>, places: seq<nat>, p: nat, entries: seq<Entry>, outs: Outputs)
    requires |places| == |pairs| && Progress(pairs, places, p, entries, outs) && (Count(outs) >= |entries| || p == |pairs|)
    ensures Agrees(pairs, places, entries, (Verdict(Count(outs), |entries|), outs))
  {
    CountBounds(outs);
    NoneUnusable(pairs, places, p, entries, outs);
    if Count(outs) == 0 {
      NoneFound(pairs, places, p, entries, outs);
    } else if Count(outs) < |entries| {
      SomeFound(pairs, places, entries, outs);
    } else {
      AllFound(pairs, places, p, entries, outs);
    }
  }

  lemma NoneUnusable(pairs: seq<Pair>, places: seq<nat>, p: nat, entries: seq<Entry>, outs: Outputs)
    requires |places| == |pairs| && Progress(pairs, places, p, entries, outs) && (Count(outs) >= |entries| || p == |pairs|)
    ensures forall e :: e in entries && Present(pairs, e) ==> Usable(pairs, e)
  {
    CountBounds(outs);
    forall e | e in entries && Present(pairs, e)
      ensures Usable(pairs, e)
    {
      var k :| 0 <= k < |entries| && entries[k] == e;
      assert outs[k].Some?;
    }
  }

  lemma NoneFound(pairs: seq<Pair>, places: seq<nat>, p: nat, entries: seq<Entry>, outs: Outputs)
    requires |places| == |pairs| && Progress(pairs, places, p, entries, outs) && Count(outs) == 0 && (|entries| == 0 || p == |pairs|)
    ensures forall e :: e in entries ==> !Present(pairs, e)
  {
    CountBounds(outs);
    forall e | e in entries
      ensures !Present(pairs, e)
    {
      var k :| 0 <= k < |entries| && entries[k] == e;
      assert outs[k].None?;
    }
  }

  lemma SomeFound(pairs: seq<Pair>, places: seq<nat>, entries: seq<Entry>, outs: Outputs)
    requires |places| == |pairs| && Progress(pairs, places, |pairs|, entries, outs) && 0 < Count(outs) < |entries|
    ensures exists e :: e in entries && Present(pairs, e)
    ensures exists e :: e in entries && !Present(pairs, e)
  {
    CountBounds(outs);
    var k :| 0 <= k < |entries| && outs[k].None?;
    assert entries[k] in entries && !Present(pairs, entries[k]);
    var m :| 0 <= m < |entries| && outs[m].Some?;
    assert entries[m] in entries && Present(pairs, entries[m]);
  }

  lemma AllFound(pairs: seq<Pair>, places: seq<nat>, p: nat, entries: seq<Entry>, outs: Outputs)
    requires |places| == |pairs| && Progress(pairs, places, p, entries, outs) && Count(outs) == |entries| > 0
    ensures LookupResult(pairs, entries) == 0 && LookedUp(pairs, places, entries, outs)
  {
    CountBounds(outs);
    forall e | e in entries
      ensures Usable(pairs, e)
    {
      var k :| 0 <= k < |entries| && entries[k] == e;
      assert outs[k].Some?;
    }
    assert entries[0] in entries;
    forall k | 0 <= k < |entries|
      ensures outs[k].Some?
    {
    }
  }

  lemma FindAt(pairs: seq<Pair>, p: nat, key: Key)
    requires GoodPairs(pairs) && p < |pairs|
    ensures KeyOf(pairs[p].key) == Some(key) <==> Find(pairs, key) == p
  {
  }

  /** A pair whose key is wanted and whose value is usable. */
  lemma ProgressFound(pairs: seq<Pair>, places: seq<nat>, p: nat, entries: seq<Entry>, outs: Outputs, i: nat)
    requires GoodPairs(pairs) && DistinctKeys(entries)
    requires |places| == |pairs| && Progress(pairs, places, p, entries, outs) && p < |pairs|
    requires i < |entries| && KeyOf(pairs[p].key) == Some(entries[i].key) && Takes(entries[i].decoder, pairs[p].value)
    ensures outs[i] == None
    ensures Progress(pairs, places, p + 1, entries, outs[i := Some(Meaning(entries[i].decoder, pairs[p].value, places[p]))])
  {
    FindAt(pairs, p, entries[i].key);
    forall k | 0 <= k < |entries| && k != i
      ensures Find(pairs, entries[k].key) != p
    {
      FindAt(pairs, p, entries[k].key);
    }
  }

  /** A pair whose key is not wanted. */
  lemma ProgressSkipped(pairs: seq<Pair>, places: seq<nat>, p: nat, entries: seq<Entry>, outs: Outputs)
    requires GoodPairs(pairs) && |places| == |pairs| && Progress(pairs, places, p, entries, outs) && p < |pairs|
    requires forall k :: 0 <= k < |entries| ==> KeyOf(pairs[p].key) != Some(entries[k].key)
    ensures Progress(pairs, places, p + 1, entries, outs)
  {
    forall k | 0 <= k < |entries|
      ensures Find(pairs, entries[k].key) != p
    {
      FindAt(pairs, p, entries[k].key);
    }
  }

  /** `places` has where the values are, pair `p` being at `pos`. */
  ghost predicate Placed(pairs: seq<Pair>, places: seq<nat>, p: nat, pos: nat)
  {
    && |places| == |pairs| && p <= |pairs| && (forall q :: q in pairs[p..] ==> SoundPair(q))
    && places[p..] == Places(pairs[p..], pos)
  }

  lemma NextPlaced(pairs: seq<Pair>, places: seq<nat>, p: nat, pos: nat)
    requires Placed(pairs, places, p, pos) && p < |pairs| && SoundPair(pairs[p])
    ensures var k, n := |Encode(pairs[p].key)|, |Encode(pairs[p].value)|;
      places[p] == pos + k && Placed(pairs, places, p + 1, pos + k + n)
  {
    hide Encode, Sound, KeyOf;
    var rest := pairs[p..];
    assert rest[0] == pairs[p] && rest[1..] == pairs[p + 1..];
    assert places[p] == places[p..][0] && places[p + 1..] == places[p..][1..];
    assert forall q :: q in pairs[p + 1..] ==> q in pairs[p..];
  }

  /** The bytes left after `p` pairs: more pairs, then the break if there is one, then whatever follows. */
  ghost predicate AtPair(s: seq<byte>, pairs: seq<Pair>, p: nat, left: Option<nat>, tail: seq<byte>)
  {
    && p <= |pairs| && (forall q :: q in pairs ==> SoundPair(q))
    && (left.None? ==> tail != [] && tail[0] == BREAK)
    && (left.Some? ==> left.value == |pairs| - p)
    && (forall q :: q in pairs[p..] ==> SoundPair(q)) && s == EncodePairs(pairs[p..]) + tail
  }

  lemma NextPair(s: seq<byte>, pairs: seq<Pair>, p: nat, left: Option<nat>, tail: seq<byte>)
    requires p < |pairs| && AtPair(s, pairs, p, left, tail) && SoundPair(pairs[p])
    ensures var k, n := |Encode(pairs[p].key)|, |Encode(pairs[p].value)|;
      && s != [] && s[0] != BREAK && k + n <= |s|
      && s == Encode(pairs[p].key) + s[k..]
      && s[k..] == Encode(pairs[p].value) + s[k + n..]
      && (forall past :: !AtMapEnd(s, past, left)) && left != Some(0) && AtPair(s[k + n..], pairs, p + 1, OneLess(left), tail)
  {
    hide Encode, Sound;
    var k, n := |Encode(pairs[p].key)|, |Encode(pairs[p].value)|;
    assert pairs[p..][1..] == pairs[p + 1..];
    var others := EncodePairs(pairs[p + 1..]) + tail;
    assert s == Encode(pairs[p].key) + (Encode(pairs[p].value) + others);
    assert s[k..] == Encode(pairs[p].value) + others;
    assert s[k + n..] == others;
  }

  lemma {:induction false} LoopAgrees(s: seq<byte>, pos: nat, past: byte, left: Option<nat>, entries: seq<Entry>, outs: Outputs,
                                      pairs: seq<Pair>, places: seq<nat>, p: nat, tail: seq<byte>)
    requires GoodPairs(pairs) && DistinctKeys(entries) && AtPair(s, pairs, p, left, tail) && Placed(pairs, places, p, pos)
    requires |places| == |pairs| && Progress(pairs, places, p, entries, outs)
    ensures Agrees(pairs, places, entries, MapLoop(s, pos, past, left, entries, outs, Count(outs)))
    decreases |pairs| - p
  {
    hide *;
    ProgressShape(pairs, places, p, entries, outs);
    LoopCases(s, pos, past, left, entries, outs, Count(outs));
    if Count(outs) >= |entries| {
      VerdictAgrees(pairs, places, p, entries, outs);
    } else if p == |pairs| {
      LastPair(s, pairs, left, tail);
      VerdictAgrees(pairs, places, p, entries, outs);
    } else {
      PairSound(pairs, p);
      NextPair(s, pairs, p, left, tail);
      NextPlaced(pairs, places, p, pos);
      var key := KeyOf(pairs[p].key).value;
      var k, n := |Encode(pairs[p].key)|, |Encode(pairs[p].value)|;
      KeyRead(pairs[p].key, s[k..]);
      var i := FindEntry(entries, key);
      if i < |entries| {
        ValueRead(entries[i].decoder, pairs[p].value, s[k + n..], pos + k);
        if Takes(entries[i].decoder, pairs[p].value) {
          var v := Meaning(entries[i].decoder, pairs[p].value, pos + k);
          ProgressFound(pairs, places, p, entries, outs, i);
          CountUpdate(outs, i, v);
          LoopAgrees(s[k + n..], pos + k + n, past, OneLess(left), entries, outs[i := Some(v)], pairs, places, p + 1, tail);
        } else {
          UnusableFound(pairs, places, p, entries, i, outs);
        }
      } else {
        SkipEncode(pairs[p].value, s[k + n..]);
        ProgressSkipped(pairs, places, p, entries, outs);
        LoopAgrees(s[k + n..], pos + k + n, past, OneLess(left), entries, outs, pairs, places, p + 1, tail);
      }
    }
  }

  lemma PairSound(pairs: seq<Pair>, p: nat)
    requires GoodPairs(pairs) && p < |pairs|
    ensures SoundPair(pairs[p])
  {
    assert pairs[p] in pairs;
  }

  lemma ProgressShape(pairs: seq<Pair>, places: seq<nat>, p: nat, entries: seq<Entry>, outs: Outputs)
    requires |places| == |pairs| && Progress(pairs, places, p, entries, outs)
    ensures p <= |pairs| && |outs| == |entries|
  {
  }

  lemma LastPair(s: seq<byte>, pairs: seq<Pair>, left: Option<nat>, tail: seq<byte>)
    requires AtPair(s, pairs, |pairs|, left, tail)
    ensures forall past :: AtMapEnd(s, past, left)
  {
  }

  lemma UnusableFound(pairs: seq<Pair>, places: seq<nat>, p: nat, entries: seq<Entry>, i: nat, outs: Outputs)
    requires GoodPairs(pairs) && |places| == |pairs| && p < |pairs| && i < |entries|
    requires KeyOf(pairs[p].key) == Some(entries[i].key) && !Takes(entries[i].decoder, pairs[p].value)
    ensures Agrees(pairs, places, entries, (-EBADMSG, outs))
  {
    FindAt(pairs, p, entries[i].key);
    assert entries[i] in entries && Present(pairs, entries[i]) && !Usable(pairs, entries[i]);
  }

  // ----- Whole maps

  /** The map with these pairs, definite or not. */
  function MapItem(pairs: seq<Pair>, w: Option<Width>): Item
  {
    if w.Some? then Map(w.value, |pairs|, Flatten(pairs)) else OpenMap(Flatten(pairs))
  }

  /** The length of the map's header. */
  function StartSize(w: Option<Width>): nat
  {
    if w.Some? then 1 + Size(w.value) else 1
  }

  /** For distinct wanted keys and any well-formed map with distinct keys, all of one kind, in any order and with any values: the
      decoder's result and outputs are those of looking the keys up. A list is stored as the place where its own elements are. */
  lemma MapDecodeIsLookup(pairs: seq<Pair>, w: Option<Width>, rest: seq<byte>, pos: nat, past: byte, entries: seq<Entry>)
    requires GoodPairs(pairs) && DistinctKeys(entries) && OneKind(pairs, entries)
    requires Sound(MapItem(pairs, w), true) && w != Some(Eight)
    ensures Agrees(pairs, Places(pairs, pos + StartSize(w)), entries,
                   DecodeMap(Encode(MapItem(pairs, w)) + rest, pos, past, entries, NoOutputs(|entries|)))
  {
    hide Agrees, Progress, NoOutputs, DecodeMap, Encode, Sound, Places, MapItem, MapLoop, Placed, AtPair, SoundPair, GoodPairs,
      EncodePairs, Count;
    GoodIsSound(pairs);
    var places, outs := Places(pairs, pos + StartSize(w)), NoOutputs(|entries|);
    var left, tail := if w.Some? then Some(|pairs|) else None, if w.Some? then rest else [BREAK] + rest;
    StartProgress(pairs, places, entries, outs);
    StartPlaced(pairs, places, pos + StartSize(w), left, tail);
    if w.Some? {
      DefiniteStart(pairs, w.value, rest, pos, past, entries);
    } else {
      OpenedStart(pairs, rest, pos, past, entries);
    }
    LoopAgrees(EncodePairs(pairs) + tail, pos + StartSize(w), past, left, entries, outs, pairs, places, 0, tail);
  }

  /** One key on its own is found wherever it is. */
  lemma OneLookedUp(pairs: seq<Pair>, w: Option<Width>, n: nat, d: Decoder, rest: seq<byte>, pos: nat, past: byte)
    requires GoodPairs(pairs) && Sound(MapItem(pairs, w), true) && w != Some(Eight) && n < |pairs|
    requires (forall p :: p in pairs ==> p.key.Text?) || (forall p :: p in pairs ==> p.key.UInt?)
    requires Takes(d, pairs[n].value) && KeyOf(pairs[n].key).Some?
    ensures DecodeMap(Encode(MapItem(pairs, w)) + rest, pos, past, [Entry(KeyOf(pairs[n].key).value, d)], NoOutputs(1))
      == (0, [Some(Meaning(d, pairs[n].value, Places(pairs, pos + StartSize(w))[n]))])
  {
    hide Encode, Sound, DecodeMap, Places, MapItem, Takes, Meaning;
    var e := Entry(KeyOf(pairs[n].key).value, d);
    assert pairs[n] in pairs && SoundPair(pairs[n]);
    FindAt(pairs, n, e.key);
    var entries := [e];
    assert e in entries && Usable(pairs, e);
    MapDecodeIsLookup(pairs, w, rest, pos, past, entries);
    var r := DecodeMap(Encode(MapItem(pairs, w)) + rest, pos, past, entries, NoOutputs(1));
    OneOutput(pairs, Places(pairs, pos + StartSize(w)), e, n, r);
  }

  lemma OneOutput(pairs: seq<Pair>, places: seq<nat>, e: Entry, n: nat, r: (int, Outputs))
    requires |places| == |pairs| && n < |pairs| && Find(pairs, e.key) == n && Takes(e.decoder, pairs[n].value)
    requires Agrees(pairs, places, [e], r)
    ensures r == (0, [Some(Meaning(e.decoder, pairs[n].value, places[n]))])
  {
    var entries := [e];
    assert e in entries && Present(pairs, e) && Usable(pairs, e);
    assert LookupResult(pairs, entries) == 0;
    assert Present(pairs, entries[0]);
    assert r.1 == [r.1[0]];
  }

  lemma DefiniteStart(pairs: seq<Pair>, w: Width, rest: seq<byte>, pos: nat, past: byte, entries: seq<Entry>)
    requires (forall p :: p in pairs ==> SoundPair(p)) && Sound(MapItem(pairs, Some(w)), true) && w != Eight
    ensures DecodeMap(Encode(MapItem(pairs, Some(w))) + rest, pos, past, entries, NoOutputs(|entries|))
      == MapLoop(EncodePairs(pairs) + rest, pos + 1 + Size(w), past, Some(|pairs|), entries, NoOutputs(|entries|), 0)
  {
    hide Head, SkipItem, MapLoop, NoOutputs, EncodePairs;
    FlattenEncodes(pairs);
    HeadOf(5, w, |pairs|, EncodePairs(pairs), rest, 4);
  }

  lemma OpenedStart(pairs: seq<Pair>, rest: seq<byte>, pos: nat, past: byte, entries: seq<Entry>)
    requires (forall p :: p in pairs ==> SoundPair(p)) && Sound(MapItem(pairs, None), true)
    ensures DecodeMap(Encode(MapItem(pairs, None)) + rest, pos, past, entries, NoOutputs(|entries|))
      == MapLoop(EncodePairs(pairs) + ([BREAK] + rest), pos + 1, past, None, entries, NoOutputs(|entries|), 0)
  {
    hide Head, SkipItem, MapLoop, NoOutputs, EncodePairs;
    FlattenEncodes(pairs);
    assert (Encode(MapItem(pairs, None)) + rest)[1..] == EncodePairs(pairs) + ([BREAK] + rest);
  }

  lemma GoodIsSound(pairs: seq<Pair>)
    requires GoodPairs(pairs)
    ensures forall p :: p in pairs ==> SoundPair(p)
  {
  }

  lemma StartPlaced(pairs: seq<Pair>, places: seq<nat>, pos: nat, left: Option<nat>, tail: seq<byte>)
    requires GoodPairs(pairs) && places == Places(pairs, pos)
    requires left == Some(|pairs|) || (left == None && tail != [] && tail[0] == BREAK)
    ensures Placed(pairs, places, 0, pos) && AtPair(EncodePairs(pairs) + tail, pairs, 0, left, tail)
  {
    hide SoundPair, Places, EncodePairs;
    assert pairs[0..] == pairs && places[0..] == places;
  }

  lemma {:induction false} StartProgress(pairs: seq<Pair>, places: seq<nat>, entries: seq<Entry>, outs: Outputs)
    requires |places| == |pairs| && outs == NoOutputs(|entries|)
    ensures Progress(pairs, places, 0, entries, outs) && Count(outs) == 0
  {
    CountBounds(outs);
  }
}
