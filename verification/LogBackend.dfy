/** The Golioth log backend at work (logging/log_backend_golioth.c): a message is formatted ahead of the write cursor in the
    packet buffer, and its text then moved down behind the keys and headers. */
module LogBackend {
  import opened Common
  import opened Cbor
  import opened CborWrite
  import opened MapTable
  import opened MapLookup
  import opened LogRecord

  /** `struct golioth_log_ctx`. The CBOR encoder's cursor is `cursor`; `begin`, `ptr` and `end` are the text's. */
  class LogContext {
    const packetBuf: array<byte>
    const start: nat            // where the CoAP payload starts
    var cursor: nat
    var begin: nat
    var ptr: nat
    var end: nat
    var msgIndex: uint32

    ghost predicate Bounded()
      reads this
    {
      start <= cursor <= packetBuf.Length < 0x1_0000
    }

    /** What the encoder has written. */
    ghost function Written(): seq<byte>
      requires Bounded()
      reads this, packetBuf
    {
      packetBuf[start..cursor]
    }

    constructor (size: nat, payloadStart: nat)
      requires payloadStart <= size < 0x1_0000
      ensures Bounded() && fresh(packetBuf) && packetBuf.Length == size && start == payloadStart && msgIndex == 0
    {
      packetBuf := new byte[size];
      start, cursor := payloadStart, payloadStart;
      begin, ptr, end, msgIndex := 0, 0, 0, 0;
    }

    /** A zcbor put: writes all of `bytes` or nothing. */
    method Put(bytes: seq<byte>) returns (ok: bool)
      requires Bounded()
      modifies this`cursor, packetBuf
      ensures Bounded() && (ok <==> old(cursor) + |bytes| <= packetBuf.Length)
      ensures Written() == if ok then old(Written()) + bytes else old(Written())
      ensures packetBuf[cursor..] == old(packetBuf[..])[cursor..]
    {
      ok := cursor + |bytes| <= packetBuf.Length;
      if ok {
        forall i | 0 <= i < |bytes| {
          packetBuf[cursor + i] := bytes[i];
        }
        cursor := cursor + |bytes|;
        assert Written() == old(Written()) + bytes;
      }
    }

    /** `zcbor_tstr_encode_ptr` and `zcbor_bstr_encode_ptr` with a string in the buffer itself: the header is written, the string
        moved down behind it. A length below 0 is huge as a size_t. The header must not reach the string. */
    method EncodePtr(major: nat, from: nat, len: int) returns (ok: bool)
      requires Bounded() && (major == 2 || major == 3) && len < 0x1_0000
      requires len >= 0 ==> cursor + 1 + Size(WidthFor(len)) <= from && from + len <= packetBuf.Length
      modifies this`cursor, packetBuf
      ensures Bounded() && ok == (len >= 0)
      ensures len < 0 ==> Written() == old(Written())
      ensures len >= 0 ==> Fits(WidthFor(len), len)
      ensures len >= 0 ==> Written() == old(Written()) + Head(major, WidthFor(len), len) + old(packetBuf[from..from + len])
      ensures len >= 0 ==> cursor <= from + len && packetBuf[from + len..] == old(packetBuf[from + len..])
    {
      if len < 0 {
        return false;
      }
      WidthFits(len);
      ghost var before := packetBuf[..];
      var head := Head(major, WidthFor(len), len);
      ok := Put(head);
      SameAfter(before, packetBuf[..], cursor, from, from + len);
      SameAfter(before, packetBuf[..], cursor, from + len, from + len);
      MoveDown(from, len);
    }

    /** memmove to the cursor, a byte at a time from the front as the ranges may overlap. */
    method MoveDown(from: nat, len: nat)
      requires Bounded() && cursor <= from && from + len <= packetBuf.Length
      modifies this`cursor, packetBuf
      ensures Bounded() && cursor == old(cursor) + len
      ensures Written() == old(Written()) + old(packetBuf[from..from + len])
      ensures packetBuf[from + len..] == old(packetBuf[from + len..])
    {
      ghost var before := packetBuf[..];
      var i := 0;
      while i < len
        invariant i <= len && cursor == old(cursor)
        invariant PartMoved(before, packetBuf[..], cursor, from, i)
      {
        hide PartMoved;
        ghost var now := packetBuf[..];
        packetBuf[cursor + i] := packetBuf[from + i];
        OneMoved(before, now, packetBuf[..], cursor, from, i);
        i := i + 1;
      }
      MovedDown(before, packetBuf[..], start, cursor, from, len);
      cursor := cursor + len;
    }

    /** `log_pdu_prepare_ext`: the space ahead of the cursor where text goes. */
    method Prepare(reserved: nat) returns (err: int)
      requires Bounded()
      modifies this`begin, this`ptr, this`end
      ensures err == if cursor + reserved > packetBuf.Length then -ENOMEM else 0
      ensures begin == ptr == cursor + reserved && end == packetBuf.Length
    {
      begin, end := cursor + reserved, packetBuf.Length;
      ptr := begin;
      err := if begin > end then -ENOMEM else 0;
    }

    /** `cbprintf_out_func`. */
    method Out(c: byte)
      requires Bounded() && cursor <= begin <= ptr <= end == packetBuf.Length
      modifies this`ptr, packetBuf
      ensures ptr == if old(ptr) < end then old(ptr) + 1 else old(ptr)
      ensures forall k :: 0 <= k < packetBuf.Length && k != old(ptr) ==> packetBuf[k] == old(packetBuf[k])
      ensures old(ptr) < end ==> packetBuf[old(ptr)] == c
    {
      if ptr >= end {
        return;
      }
      packetBuf[ptr] := c;
      ptr := ptr + 1;
    }

    /** The formatter, which hands out a character at a time. */
    method Format(text: seq<byte>)
      requires Bounded() && cursor <= begin == ptr <= end == packetBuf.Length
      modifies this`ptr, packetBuf
      ensures Bounded() && begin <= ptr <= end && packetBuf[begin..ptr] == Stored(text, end - begin)
      ensures Written() == old(Written())
    {
      for i := 0 to |text|
        invariant begin <= ptr <= end && ptr - begin == (if i < end - begin then i else end - begin)
        invariant packetBuf[begin..ptr] == Stored(text[..i], end - begin)
        invariant forall k :: 0 <= k < begin ==> packetBuf[k] == old(packetBuf[k])
      {
        ghost var stored := packetBuf[begin..ptr];
        Out(text[i]);
        assert text[..i + 1] == text[..i] + [text[i]];
        assert packetBuf[begin..ptr] == if i < end - begin then stored + [text[i]] else stored;
      }
      assert text[..|text|] == text;
    }

    /** `find_colon`, as an index; `until` when there is none. */
    method FindColon(from: nat, until: nat) returns (p: nat)
      requires from <= until <= packetBuf.Length
      ensures p == from + FirstColon(packetBuf[from..until])
    {
      p := from;
      while p < until
        invariant from <= p <= until && COLON !in packetBuf[from..p]
      {
        if packetBuf[p] == COLON {
          assert packetBuf[from..until][..p - from] == packetBuf[from..p];
          FirstColonIs(packetBuf[from..until], p - from);
          return;
        }
        assert packetBuf[from..p + 1] == packetBuf[from..p] + [packetBuf[p]];
        p := p + 1;
      }
      assert packetBuf[from..until][..p - from] == packetBuf[from..p];
      FirstColonIs(packetBuf[from..until], p - from);
    }

    /** The map of pairs is open, and these are in it. */
    ghost predicate Holds(pairs: seq<Pair>)
      reads this, packetBuf
    {
      Bounded() && AllSound(pairs) && Written() == Opened(pairs)
    }

    /** A key and a value, the value only after the key. */
    method PutPair(key: seq<byte>, value: Item, ghost pairs: seq<Pair>) returns (ok: bool)
      requires Bounded() && SoundPair(TextPair(key, value))
      modifies this`cursor, packetBuf
      ensures Bounded()
      ensures ok <==> old(cursor) + PairSize(TextPair(key, value)) <= packetBuf.Length
      ensures ok && old(Holds(pairs)) ==> Holds(pairs + [TextPair(key, value)])
    {
      hide Encode, SoundPair, Opened;
      assert Sound(TextItem(key), true) && Sound(value, true) by { SoundParts(key, value); }
      if AllSound(pairs) { OpenedAppend(pairs, TextPair(key, value)); }
      ok := Put(Encode(TextItem(key)));
      if ok {
        ok := Put(Encode(value));
      }
    }

    /** The same without a look at whether the writes fit. */
    method PutUnchecked(key: seq<byte>, value: Item, ghost pairs: seq<Pair>)
      requires Bounded() && SoundPair(TextPair(key, value))
      modifies this`cursor, packetBuf
      ensures Bounded()
      ensures old(cursor) + PairSize(TextPair(key, value)) <= packetBuf.Length && old(Holds(pairs)) ==>
                Holds(pairs + [TextPair(key, value)])
    {
      hide Encode, SoundPair, Opened;
      assert Sound(TextItem(key), true) && Sound(value, true) by { SoundParts(key, value); }
      if AllSound(pairs) { OpenedAppend(pairs, TextPair(key, value)); }
      var _ := Put(Encode(TextItem(key)));
      var _ := Put(Encode(value));
    }

    /** `log_cbor_append_headers`. */
    method AppendHeaders(r: Record, ghost pairs: seq<Pair>)
      requires Bounded() && (r.source.Some? ==> |r.source.value| < 0x1_0000) && r.level != 0 && AllSound(pairs)
      modifies this`cursor, packetBuf
      ensures Bounded() && AllSound(pairs + Labels(r))
      ensures old(Holds(pairs)) && start + |Opened(pairs + Labels(r))| <= packetBuf.Length ==> Holds(pairs + Labels(r))
    {
      hide Encode, Opened, TextItem, LevelText, SoundPair;
      ghost var now := pairs;
      if r.source.Some? {
        ghost var p := TextPair(MODULE, TextItem(r.source.value));
        LabelSound(MODULE, r.source.value);
        OpenedAppend(pairs, p);
        PutUnchecked(MODULE, TextItem(r.source.value), pairs);
        now := pairs + [p];
      }
      ghost var q := TextPair(LEVEL, TextItem(LevelText(r.level)));
      LevelSmall(r.level);
      LabelSound(LEVEL, LevelText(r.level));
      OpenedAppend(now, q);
      assert pairs + Labels(r) == now + [q];
      PutUnchecked(LEVEL, TextItem(LevelText(r.level)), now);
    }

    /** The text of a message, behind the pairs that are there. */
    method ProcessText(text: seq<byte>, hasFunc: bool, ghost pairs: seq<Pair>) returns (err: int)
      requires Bounded()
      modifies this`cursor, this`begin, this`ptr, this`end, packetBuf
      ensures Bounded() && (err == 0 || err == -ENOMEM)
      ensures var more := TextPairs(Some(text), hasFunc, packetBuf.Length - old(cursor));
        (err == 0 <==> more.Some?) && (err == 0 && old(Holds(pairs)) ==> Holds(pairs + more.value))
    {
      hide Encode, Opened, AllSound, FirstColon;
      err := Prepare(Reserved(hasFunc));
      if err != 0 {
        return;
      }
      Format(text);
      ghost var stored := packetBuf[begin..ptr];
      var colon := ptr;
      if hasFunc {
        colon := FindColon(begin, ptr);
      }
      if colon < ptr {
        err := PutFuncAndMsg(colon, stored, pairs);
      } else {
        PutText(MSG, begin, ptr, stored, pairs);
      }
    }

    /** A key, and text from further on in the buffer moved down behind it. */
    method PutText(key: seq<byte>, from: nat, until: nat, ghost text: seq<byte>, ghost pairs: seq<Pair>)
      requires Bounded() && |key| < 24 && cursor + |key| + 4 <= from <= until <= packetBuf.Length
      requires packetBuf[from..until] == text
      modifies this`cursor, packetBuf
      ensures Bounded() && (old(Holds(pairs)) ==> Holds(pairs + [TextPair(key, TextItem(text))]))
      ensures cursor <= old(cursor) + |key| + 4 + |text| && packetBuf[until..] == old(packetBuf[until..])
    {
      hide Encode, Opened, SoundPair, AllSound;
      KeySize(key);
      SmallText(text);
      ghost var before := packetBuf[..];
      var _ := Put(Encode(TextItem(key)));
      SameAfter(before, packetBuf[..], cursor, from, until);
      SameAfter(before, packetBuf[..], cursor, until, until);
      MoveText(from, until, text);
      hide TextItem;
      LabelSound(key, text);
      if AllSound(pairs) { OpenedAppend(pairs, TextPair(key, TextItem(text))); }
    }

    /** `zcbor_tstr_encode_ptr` with text that is there. */
    method MoveText(from: nat, until: nat, ghost text: seq<byte>)
      requires Bounded() && cursor + 3 <= from <= until <= packetBuf.Length && packetBuf[from..until] == text
      modifies this`cursor, packetBuf
      ensures Bounded() && Sound(TextItem(text), true) && Written() == old(Written()) + Encode(TextItem(text))
      ensures cursor <= old(cursor) + 3 + |text| && packetBuf[until..] == old(packetBuf[until..])
    {
      hide Encode;
      SmallText(text);
      var _ := EncodePtr(3, from, until - from);
    }

    /** The text up to the colon as the function, and what follows the byte after the colon as the message. */
    method PutFuncAndMsg(colon: nat, ghost stored: seq<byte>, ghost pairs: seq<Pair>) returns (err: int)
      requires Bounded() && cursor + Reserved(true) <= begin <= colon < ptr <= packetBuf.Length
      requires packetBuf[begin..ptr] == stored
      modifies this`cursor, packetBuf
      ensures Bounded() && err == if colon + 2 <= ptr then 0 else -ENOMEM
      ensures err == 0 && old(Holds(pairs)) ==>
        Holds(pairs + [TextPair(FUNC, TextItem(stored[..colon - begin])), TextPair(MSG, TextItem(stored[colon - begin + 2..]))])
    {
      hide Encode, Opened, SoundPair, AllSound, TextPair, TextItem;
      ghost var k := colon - begin;
      ghost var func := TextPair(FUNC, TextItem(stored[..k]));
      assert packetBuf[begin..colon] == stored[..k];
      ghost var before := packetBuf[..];
      PutText(FUNC, begin, colon, stored[..k], pairs);
      if colon + 2 <= ptr {
        ghost var body := stored[k + 2..];
        SameAfter(before, packetBuf[..], colon, colon + 2, ptr);
        assert packetBuf[colon + 2..ptr] == body;
        PutText(MSG, colon + 2, ptr, body, pairs + [func]);
        assert pairs + [func] + [TextPair(MSG, TextItem(body))] == pairs + [func, TextPair(MSG, TextItem(body))];
        return 0;
      }
      KeySize(MSG);
      var ok := Put(Encode(TextItem(MSG)));
      if ok {
        ok := EncodePtr(3, colon, ptr - (colon + 2));
      }
      return -ENOMEM;
    }

    /** The hexdump of a message, behind the pairs that are there; what has no room is cut off. */
    method ProcessDump(dump: seq<byte>, ghost pairs: seq<Pair>) returns (err: int)
      requires Bounded() && dump != []
      modifies this`cursor, this`begin, this`ptr, this`end, packetBuf
      ensures Bounded() && (err == 0 || err == -ENOMEM)
      ensures var more := DumpPairs(dump, packetBuf.Length - old(cursor));
        (err == 0 <==> more.Some?) && (err == 0 && old(Holds(pairs)) ==> Holds(pairs + more.value))
    {
      hide Encode, Opened, SoundPair, AllSound;
      KeySize(HEXDUMP);
      var _ := Put(Encode(TextItem(HEXDUMP)));
      err := Prepare(CBOR_SPACE_RESERVED);
      if err != 0 {
        return;
      }
      ghost var stored := Stored(dump, end - begin);
      SmallBytes(stored);
      CopyDump(dump);
      FinishDump(stored);
      DumpSound(stored);
      hide BytesItem, TextItem, Stored;
      if AllSound(pairs) { OpenedAppend(pairs, TextPair(HEXDUMP, BytesItem(stored))); }
    }

    /** `log_pdu_bytes_finish`. */
    method FinishDump(ghost stored: seq<byte>)
      requires Bounded() && cursor + 3 <= begin <= ptr <= packetBuf.Length && packetBuf[begin..ptr] == stored
      modifies this`cursor, packetBuf
      ensures Bounded() && Sound(BytesItem(stored), true) && Written() == old(Written()) + Encode(BytesItem(stored))
    {
      hide Encode;
      SmallBytes(stored);
      var _ := EncodePtr(2, begin, ptr - begin);
    }

    /** As much of the hexdump as there is room for, ahead of the cursor. */
    method CopyDump(dump: seq<byte>)
      requires Bounded() && cursor <= begin == ptr <= end == packetBuf.Length
      modifies this`ptr, packetBuf
      ensures begin <= ptr <= end && packetBuf[begin..ptr] == Stored(dump, end - begin) && Written() == old(Written())
    {
      var len := if |dump| > end - begin then end - begin else |dump|;
      forall i | 0 <= i < len {
        packetBuf[begin + i] := dump[i];
      }
      ptr := ptr + len;
      assert packetBuf[begin..ptr] == Stored(dump, end - begin);
    }

    /** The start of the map, the uptime, the labels and the index. */
    method EncodeHeader(r: Record) returns (ok: bool)
      requires start <= packetBuf.Length < 0x1_0000
      requires r.uptime < 2 * HALF64 && (r.source.Some? ==> |r.source.value| < 0x1_0000)
      modifies this`cursor, packetBuf
      ensures Bounded() && AllSound(HeaderPairs(r, msgIndex))
      ensures start + |Opened(HeaderPairs(r, msgIndex))| <= packetBuf.Length ==> ok && Holds(HeaderPairs(r, msgIndex))
    {
      hide Encode, Opened, SoundPair, AllSound, Labels, UintItem;
      cursor := start;
      ghost var first, last := TextPair(UPTIME, UintItem(r.uptime)), TextPair(INDEX, UintItem(msgIndex));
      HeaderSteps(r, msgIndex);
      ok := Put([0xBF]);
      if ok {
        ok := PutPair(UPTIME, UintItem(r.uptime), []);
        assert [] + [first] == [first];
      }
      if ok {
        if r.level != 0 {
          AppendHeaders(r, [first]);
        }
        ok := PutPair(INDEX, UintItem(msgIndex), [first] + Labels(r));
      }
    }

    /** The text and the hexdump, behind the header. */
    method EncodeRest(r: Record) returns (err: int)
      requires Bounded() && AllSound(HeaderPairs(r, msgIndex))
      modifies this`cursor, this`begin, this`ptr, this`end, packetBuf
      ensures Bounded() && (err == 0 || err == -ENOMEM)
      ensures old(Holds(HeaderPairs(r, msgIndex))) ==>
        var final := FinalPairs(r, msgIndex, packetBuf.Length - start);
        (err == 0 <==> final.Some?) && (err == 0 ==> Holds(final.value))
    {
      hide Encode, Opened, SoundPair, AllSound, HeaderPairs, TextPairs, DumpPairs, FinalPairs;
      ghost var pairs := HeaderPairs(r, msgIndex);
      ghost var fine, room := Holds(pairs), packetBuf.Length - cursor;
      FinalSteps(r, msgIndex, packetBuf.Length - start);
      err := 0;
      if r.package.Some? {
        err := ProcessText(r.package.value, r.hasFunc, pairs);
      }
      if err != 0 {
        return;
      }
      ghost var texted := if fine then pairs + TextPairs(r.package, r.hasFunc, room).value else [];
      assert fine ==> Holds(texted);
      if r.dump != [] {
        err := ProcessDump(r.dump, texted);
      }
    }

    /** The message part of `log_msg_process`: the whole map. */
    method EncodeRecord(r: Record) returns (err: int)
      requires start <= packetBuf.Length < 0x1_0000
      requires r.uptime < 2 * HALF64 && (r.source.Some? ==> |r.source.value| < 0x1_0000)
      modifies this`cursor, this`begin, this`ptr, this`end, packetBuf
      ensures Bounded() && (err == 0 || err == -ENOMEM) && AllSound(HeaderPairs(r, msgIndex))
      ensures Encoded(r, msgIndex, packetBuf.Length - start, err, Written())
    {
      hide Encode, Opened, SoundPair, AllSound, HeaderPairs, FinalPairs, MapItem;
      var ok := EncodeHeader(r);
      if !ok {
        return -ENOMEM;
      }
      err := EncodeRest(r);
      if err != 0 {
        return;
      }
      ghost var final := FinalPairs(r, msgIndex, packetBuf.Length - start);
      if final.Some? {
        ClosedEncodes(final.value);
      }
      ok := Put([BREAK]);
      err := if ok then 0 else -ENOMEM;
    }

    /** `log_msg_process` up to sending: every message takes an index, also one that fails. */
    method LogMsgProcess(r: Record) returns (err: int)
      requires start <= packetBuf.Length < 0x1_0000
      requires r.uptime < 2 * HALF64 && (r.source.Some? ==> |r.source.value| < 0x1_0000)
      modifies this, packetBuf
      ensures Bounded() && (err == 0 || err == -ENOMEM) && msgIndex == Wrap32(old(msgIndex) + 1)
      ensures AllSound(HeaderPairs(r, old(msgIndex)))
      ensures Encoded(r, old(msgIndex), packetBuf.Length - start, err, Written())
    {
      err := EncodeRecord(r);
      msgIndex := Wrap32(msgIndex + 1);
    }
  }

  /** FinalPairs by cases. */
  lemma FinalSteps(r: Record, index: uint32, capacity: nat)
    requires AllSound(HeaderPairs(r, index)) && capacity < 0x1_0000
    ensures var header := HeaderPairs(r, index);
      var text := TextPairs(r.package, r.hasFunc, capacity - |Opened(header)|);
      var final := FinalPairs(r, index, capacity);
      && (r.package.None? ==> text == Some([]))
      && (text.None? ==> final == None)
      && (text.Some? ==>
            && AllSound(header + text.value)
            && var dump := DumpPairs(r.dump, capacity - |Opened(header + text.value)|);
               && (dump.None? ==> final == None)
               && (dump.Some? ==> final == Some(header + text.value + dump.value))
               && (r.dump == [] ==> final == Some(header + text.value)))
      && header + [] == header
  {
    hide Opened, HeaderPairs, MessagePairs;
    var header := HeaderPairs(r, index);
    var text := TextPairs(r.package, r.hasFunc, capacity - |Opened(header)|);
    if text.Some? {
      TextPairsSound(r.package, r.hasFunc, capacity - |Opened(header)|);
      SoundConcat(header, text.value);
      assert header + text.value + [] == header + text.value;
    }
  }

  /** The header pairs, one group after the other. */
  lemma HeaderSteps(r: Record, index: uint32)
    requires r.uptime < 2 * HALF64 && (r.source.Some? ==> |r.source.value| < 0x1_0000)
    ensures var first, last := TextPair(UPTIME, UintItem(r.uptime)), TextPair(INDEX, UintItem(index));
      && SoundPair(first) && SoundPair(last) && AllSound(HeaderPairs(r, index))
      && AllSound([]) && Opened([]) == [0xBF]
      && AllSound([first]) && AllSound([first] + Labels(r))
      && |Opened([first])| == 1 + PairSize(first) && |Opened([first])| <= |Opened([first] + Labels(r))|
      && |Opened(HeaderPairs(r, index))| == |Opened([first] + Labels(r))| + PairSize(last)
      && (r.level == 0 ==> [first] + Labels(r) == [first])
  {
    var first, last := TextPair(UPTIME, UintItem(r.uptime)), TextPair(INDEX, UintItem(index));
    HeaderSound(r, index);
    hide Encode, SoundPair, Opened, Labels, UintItem, EncodePairs;
    assert HeaderPairs(r, index)[0] == first && HeaderPairs(r, index)[1 + |Labels(r)|] == last;
    assert forall p :: p in Labels(r) ==> p in HeaderPairs(r, index);
    EmptyOpened();
    OpenedAppend([], first);
    assert [] + [first] == [first];
    OpenedGrows([first], Labels(r));
    OpenedAppend([first] + Labels(r), last);
    LabelsOf(r, first);
  }

  lemma EmptyOpened()
    ensures AllSound([]) && Opened([]) == [0xBF]
  {
  }

  lemma LabelsOf(r: Record, first: Pair)
    ensures r.level == 0 ==> [first] + Labels(r) == [first]
  {
  }

  lemma {:induction false} OpenedGrows(pairs: seq<Pair>, more: seq<Pair>)
    requires AllSound(pairs) && AllSound(more)
    ensures AllSound(pairs + more) && |Opened(pairs)| <= |Opened(pairs + more)|
    decreases |more|
  {
    hide Encode, SoundPair, Opened;
    if more == [] {
      assert pairs + more == pairs;
    } else {
      OpenedAppend(pairs, more[0]);
      OpenedGrows(pairs + [more[0]], more[1..]);
      assert pairs + more == pairs + [more[0]] + more[1..];
    }
  }

  /** The first `i` bytes are at the cursor, and the others where they were. */
  ghost predicate PartMoved(before: seq<byte>, now: seq<byte>, cursor: nat, from: nat, i: nat)
  {
    && |before| == |now| && cursor <= from && from + i <= |now|
    && now[..cursor + i] == before[..cursor] + before[from..from + i] && now[from + i..] == before[from + i..]
  }

  lemma StillThere(before: seq<byte>, now: seq<byte>, from: nat)
    requires |before| == |now| && from < |now| && now[from..] == before[from..]
    ensures now[from] == before[from] && now[from + 1..] == before[from + 1..]
  {
    assert now[from] == now[from..][0] && before[from] == before[from..][0];
    assert now[from + 1..] == now[from..][1..] && before[from + 1..] == before[from..][1..];
  }

  lemma OneMoved(before: seq<byte>, now: seq<byte>, after: seq<byte>, cursor: nat, from: nat, i: nat)
    requires PartMoved(before, now, cursor, from, i) && |before| == |now| && cursor <= from && from + i < |now|
    requires after == now[cursor + i := now[from + i]]
    ensures PartMoved(before, after, cursor, from, i + 1)
  {
    StillThere(before, now, from + i);
    assert after[..cursor + i + 1] == now[..cursor + i] + [before[from + i]];
    assert before[from..from + i + 1] == before[from..from + i] + [before[from + i]];
    assert after[from + i + 1..] == now[from + i + 1..];
  }

  lemma MovedDown(before: seq<byte>, after: seq<byte>, start: nat, cursor: nat, from: nat, len: nat)
    requires PartMoved(before, after, cursor, from, len) && start <= cursor
    ensures after[from + len..] == before[from + len..]
    ensures after[start..cursor + len] == before[start..cursor] + before[from..from + len]
  {
    assert after[start..cursor + len] == after[..cursor + len][start..];
    assert before[start..cursor] == before[..cursor][start..];
  }

  /** What lies behind the cursor stays. */
  lemma SameAfter(before: seq<byte>, after: seq<byte>, cursor: nat, from: nat, until: nat)
    requires |before| == |after| && cursor <= from <= until <= |before| && after[cursor..] == before[cursor..]
    ensures after[from..until] == before[from..until] && after[from..] == before[from..]
  {
    assert forall i :: from <= i < |before| ==> after[i] == after[cursor..][i - cursor];
    assert forall i :: from <= i < |before| ==> before[i] == before[cursor..][i - cursor];
  }

  lemma LabelSound(key: seq<byte>, text: seq<byte>)
    requires |key| < 24 && |text| < 0x1_0000
    ensures SoundPair(TextPair(key, TextItem(text)))
  {
    KeySize(key);
    SmallText(text);
  }

  lemma LevelSmall(level: nat)
    ensures |LevelText(level)| <= 5
  {
  }

  lemma SoundParts(key: seq<byte>, value: Item)
    requires SoundPair(TextPair(key, value))
    ensures Sound(TextItem(key), true) && Sound(value, true)
  {
  }

  lemma FirstColonIs(text: seq<byte>, k: nat)
    requires k <= |text| && COLON !in text[..k] && (k < |text| ==> text[k] == COLON)
    ensures FirstColon(text) == k
  {
    var f := FirstColon(text);
    assert forall i :: 0 <= i < k ==> text[i] in text[..k];
    assert forall i :: 0 <= i < f ==> text[i] in text[..f];
  }
}
