/** `zcbor_map_decode` (net/golioth/zcbor_utils.c), a table of wanted keys against a CBOR map, with the value decoders of
    zcbor_utils.c and rpc.c. */
module MapTable {
  import opened Common
  import opened Cbor
  import opened CborSkip
  import opened ZcborState

  // ----- zcbor's own decoders, as section 3 of RFC 8949 has them, on a 32-bit machine

  datatype Read<T> = Failed | Got(value: T, length: nat)

  /** `zcbor_tstr_decode`. */
  function ReadText(s: seq<byte>): (r: Read<seq<byte>>)
    ensures r.Got? ==> 1 <= r.length <= |s|
  {
    if s == [] || Major(s[0]) != 3 || ReadHead(s, 4).None? then Failed
    else
      var (n, h) := ReadHead(s, 4).value;
      if n > |s| - h then Failed else Got(s[h..h + n], h + n)
  }

  /** `zcbor_uint32_decode`. */
  function ReadUint32(s: seq<byte>): (r: Read<nat>)
    ensures r.Got? ==> 1 <= r.length <= |s|
  {
    if s == [] || Major(s[0]) != 0 || ReadHead(s, 4).None? then Failed
    else
      var (n, h) := ReadHead(s, 4).value;
      Got(n, h)
  }

  const HALF64: int := 0x8000_0000_0000_0000

  /** `zcbor_int64_decode`. */
  function ReadInt64(s: seq<byte>): (r: Read<int>)
    ensures r.Got? ==> 1 <= r.length <= |s|
  {
    if s == [] || Major(s[0]) > 1 || ReadHead(s, 8).None? then Failed
    else
      var (n, h) := ReadHead(s, 8).value;
      if n >= HALF64 then Failed else Got(if Major(s[0]) == 0 then n else -1 - n, h)
  }

  /** A container's start: its element count, or `None` when it is of indefinite length. */
  function ReadStart(s: seq<byte>, major: nat): (r: Read<Option<nat>>)
    requires major == 4 || major == 5
    ensures r.Got? ==> 1 <= r.length <= |s|
    ensures r.Got? && r.value.Some? && major == 5 ==> r.value.value % 2 == 0 && r.value.value < MOD32
  {
    if s == [] || Major(s[0]) != major then Failed
    else if s[0] % 32 == 31 then Got(None, 1)
    else match ReadHead(s, 4)
      case None => Failed
      case Some((n, h)) =>
        if major == 5 && n >= HALF32 then Failed
        else Got(Some(if major == 5 then 2 * n else n), h)
  }

  // ----- Keys, entries, values

  datatype Key = U32Key(number: nat) | TstrKey(text: seq<byte>)

  /** The `decode` callback of an entry: `zcbor_map_int64_decode`, `zcbor_map_tstr_decode`, `params_decode`. */
  datatype Decoder = Int64 | Tstr | Params

  datatype Entry = Entry(key: Key, decoder: Decoder)

  /** What a callback stores: a number, a string, or a copy of the cursor at the start of a list. */
  datatype Value = Number(n: int) | String(text: seq<byte>) | ListAt(payload: nat, count: Option<nat>)

  /** `zcbor_map_key_decode`. */
  function ReadKey(s: seq<byte>): (r: Read<Key>)
    ensures r.Got? ==> 1 <= r.length <= |s|
  {
    match ReadText(s)
    case Got(text, n) => Got(TstrKey(text), n)
    case Failed =>
      match ReadUint32(s)
      case Got(number, n) => Got(U32Key(number), n)
      case Failed => Failed
  }

  /** The length of the rest of a list, its end included. */
  function SkipRest(s: seq<byte>, count: Option<nat>): (r: Option<nat>)
    ensures r.Some? ==> r.value <= |s|
  {
    if count.None? then SkipToBreak(s) else SkipMany(s, count.value)
  }

  /** What a callback does with a value at `pos`. */
  function ReadValue(d: Decoder, s: seq<byte>, pos: nat): (r: Read<Value>)
    ensures r.Got? ==> 1 <= r.length <= |s|
  {
    match d
    case Int64 =>
      (match ReadInt64(s)
       case Failed => Failed
       case Got(n, h) => Got(Number(n), h))
    case Tstr =>
      (match ReadText(s)
       case Failed => Failed
       case Got(text, n) => Got(String(text), n))
    case Params =>
      match ReadStart(s, 4)
      case Failed => Failed
      case Got(count, h) =>
        if SkipRest(s[h..], count).None? then Failed
        else Got(ListAt(pos + h, count), h + SkipRest(s[h..], count).value)
  }

  /** `map_entry_get`; the number of entries when there is none. */
  function FindEntry(entries: seq<Entry>, key: Key): (i: nat)
    ensures i <= |entries|
    ensures i < |entries| ==> entries[i].key == key
    ensures forall j :: 0 <= j < i ==> entries[j].key != key
  {
    if entries == [] || entries[0].key == key then 0 else 1 + FindEntry(entries[1..], key)
  }

  // ----- The decoder on bytes

  type Outputs = seq<Option<Value>>

  function Verdict(found: nat, wanted: nat): int
  {
    if found == 0 then -ENOENT else if found < wanted then -EBADMSG else 0
  }

  /** `zcbor_list_or_map_end`, which looks at a byte past the payload when an unfinished map of indefinite length ends there. */
  predicate AtMapEnd(s: seq<byte>, past: byte, left: Option<nat>)
  {
    if left.None? then (if s == [] then past else s[0]) == BREAK else left.value == 0
  }

  function OneLess(left: Option<nat>): Option<nat>
    requires left != Some(0)
  {
    if left.None? then None else Some(left.value - 1)
  }

  /** The loop over the pairs at `s`, which is at offset `pos`; `left` pairs are announced, `found` entries are decoded. */
  function MapLoop(s: seq<byte>, pos: nat, past: byte, left: Option<nat>, entries: seq<Entry>, outs: Outputs, found: nat)
    : (int, Outputs)
    requires |outs| == |entries|
    decreases |s|
  {
    if found >= |entries| || AtMapEnd(s, past, left) then (Verdict(found, |entries|), outs)
    else match ReadKey(s)
      case Failed => (-EBADMSG, outs)
      case Got(key, k) =>
        var i := FindEntry(entries, key);
        if i < |entries| then
          match ReadValue(entries[i].decoder, s[k..], pos + k)
          case Failed => (-EBADMSG, outs)
          case Got(value, n) =>
            MapLoop(s[k + n..], pos + k + n, past, OneLess(left), entries, outs[i := Some(value)], found + 1)
        else
          match SkipItem(s[k..], true)
          case None => (-EBADMSG, outs)
          case Some(n) => MapLoop(s[k + n..], pos + k + n, past, OneLess(left), entries, outs, found)
  }

  function NoOutputs(n: nat): Outputs
  {
    seq(n, _ => None)
  }

  function Pairs(count: Option<nat>): Option<nat>
  {
    if count.None? then None else Some(count.value / 2)
  }

  function DecodeMap(s: seq<byte>, pos: nat, past: byte, entries: seq<Entry>, outs: Outputs): (int, Outputs)
    requires |outs| == |entries|
  {
    match ReadStart(s, 5)
    case Failed => (-EBADMSG, outs)
    case Got(count, h) => MapLoop(s[h..], pos + h, past, Pairs(count), entries, outs, 0)
  }

  /** MapLoop by cases, for use where its parts are not looked into. */
  lemma LoopCases(s: seq<byte>, pos: nat, past: byte, left: Option<nat>, entries: seq<Entry>, outs: Outputs, found: nat)
    requires |outs| == |entries|
    ensures var r := MapLoop(s, pos, past, left, entries, outs, found);
      if found >= |entries| || AtMapEnd(s, past, left) then r == (Verdict(found, |entries|), outs)
      else if ReadKey(s).Failed? then r == (-EBADMSG, outs)
      else
        var k := ReadKey(s).length;
        var i := FindEntry(entries, ReadKey(s).value);
        if i < |entries| then
          var v := ReadValue(entries[i].decoder, s[k..], pos + k);
          if v.Failed? then r == (-EBADMSG, outs)
          else r == MapLoop(s[k + v.length..], pos + k + v.length, past, OneLess(left), entries,
                            outs[i := Some(v.value)], found + 1)
        else
          var n := SkipItem(s[k..], true);
          if n.None? then r == (-EBADMSG, outs)
          else r == MapLoop(s[k + n.value..], pos + k + n.value, past, OneLess(left), entries, outs, found)
  {
    hide ReadKey, ReadValue, SkipItem;
  }

  /** Keys and values byte for byte. */
  lemma ReadExamples()
    ensures ReadKey([0x61, 97]) == Got(TstrKey([97]), 2) && ReadKey([0x07]) == Got(U32Key(7), 1)
    ensures ReadKey([0x20]) == Failed && ReadKey([0x80]) == Failed
    ensures ReadValue(Int64, [0x07], 0) == Got(Number(7), 1) && ReadValue(Int64, [0x26], 0) == Got(Number(-7), 1)
    ensures ReadValue(Tstr, [0x61, 97], 0) == Got(String([97]), 2)
    ensures ReadValue(Params, [0x80], 5) == Got(ListAt(6, Some(0)), 1)
    ensures ReadValue(Params, [0x9F, 0xFF], 5) == Got(ListAt(6, None), 2)
  {
    assert [0x61, 97][1..2] == [97];
    assert [0x9F, 0xFF][1..] == [0xFF] && [0x80][1..] == [];
    assert SkipToBreak([0xFF]) == Some(1);
  }
}
