/** The decoding cursor of zcbor and net/golioth/zcbor_any_skip_fixed.c as they run: fields moved forward in place, a
    copied state for each nested container. Each method is proved against its function in Cbor. */
module ZcborState {
  import opened Common
  import opened Cbor

  // The element count of a container of indefinite length; a payload is shorter than that.
  const LARGE_ELEM_COUNT: int := 0xFFFF_FFF0

  /** `zcbor_state_t`. The payload ends with `buf`; `past` is whatever byte the memory holds after it. */
  class State {
    const buf: seq<byte>
    const past: byte
    var payload: nat
    var elemCount: uint32
    var indefinite: bool

    ghost predicate Valid()
      reads this
    {
      payload <= |buf| < LARGE_ELEM_COUNT
    }

    /** What is still to be decoded. */
    function Rest(): seq<byte>
      reads this
      requires payload <= |buf|
    {
      buf[payload..]
    }

    constructor (buf: seq<byte>, past: byte, payload: nat, elemCount: uint32, indefinite: bool)
      ensures this.buf == buf && this.past == past
      ensures this.payload == payload && this.elemCount == elemCount && this.indefinite == indefinite
    {
      this.buf, this.past, this.payload, this.elemCount, this.indefinite := buf, past, payload, elemCount, indefinite;
    }

    /** `*payload`, read without looking at the end of the payload. */
    function Peek(): byte
      reads this
    {
      if payload < |buf| then buf[payload] else past
    }

    /** Moves past `n` bytes, one element. */
    method Advance(n: nat)
      requires Valid() && payload + n <= |buf|
      modifies this`payload, this`elemCount
      ensures Valid() && payload == old(payload) + n && elemCount == Wrap32(old(elemCount) - 1)
    {
      payload := payload + n;
      elemCount := Wrap32(elemCount - 1);
    }

    /** `value_extract`: all or nothing. */
    method ValueExtract(limit: nat) returns (ok: bool, value: nat)
      requires Valid()
      modifies this`payload, this`elemCount
      ensures Valid()
      ensures ok <==> old(elemCount) > 0 && ReadHead(old(Rest()), limit).Some?
      ensures ok ==> var (v, h) := ReadHead(old(Rest()), limit).value;
        value == v && payload == old(payload) + h && elemCount == old(elemCount) - 1
      ensures !ok ==> payload == old(payload) && elemCount == old(elemCount)
    {
      value := 0;
      if payload == |buf| || elemCount == 0 {
        return false, 0;
      }
      var additional := buf[payload] % 32;
      var len := ArgumentSize(additional);
      if len.None? || len.value > limit || payload + 1 + len.value > |buf| {
        return false, 0;
      }
      if len.value == 0 {
        value := additional;
      } else {
        var i := 0;
        while i < len.value
          invariant 0 <= i <= len.value
          invariant value == FromBigEndian(buf[payload + 1..payload + 1 + i])
        {
          value := value * 256 + buf[payload + 1 + i];
          assert buf[payload + 1..payload + 1 + i] == buf[payload + 1..payload + 2 + i][..i];
          i := i + 1;
        }
        assert Rest()[1..1 + len.value] == buf[payload + 1..payload + 1 + len.value];
      }
      Advance(1 + len.value);
      return true, value;
    }

    /** `zcbor_tag_decode`: a 32-bit tag, which is no element. */
    method TagDecode() returns (ok: bool)
      requires Valid() && payload < |buf| && Major(buf[payload]) == 6
      modifies this`payload, this`elemCount
      ensures Valid()
      ensures ok <==> elemCount > 0 && ReadHead(old(Rest()), 4).Some?
      ensures elemCount == old(elemCount)
      ensures payload == old(payload) + if ok then ReadHead(old(Rest()), 4).value.1 else 0
    {
      var tag;
      ok, tag := ValueExtract(4);
      if ok {
        elemCount := elemCount + 1;
      }
    }

    /** `zcbor_array_at_end`. */
    predicate AtEnd()
      reads this
    {
      if indefinite then payload < |buf| && buf[payload] == BREAK else elemCount == 0
    }

    /** The tag loop of the skipper. */
    method SkipTagsOf() returns (ok: bool)
      requires Valid()
      modifies this`payload, this`elemCount
      ensures Valid() && elemCount == old(elemCount)
      ensures ok <==> SkipTags(old(Rest())).Some? && (SkipTags(old(Rest())).value > 0 ==> elemCount > 0)
      ensures ok ==> payload == old(payload) + SkipTags(old(Rest())).value
    {
      hide SkipTags, ReadHead;
      TagCases(Rest());
      if payload == |buf| {
        return false;
      }
      while Major(buf[payload]) == 6
        invariant Valid() && payload < |buf| && old(payload) <= payload && elemCount == old(elemCount)
        invariant payload > old(payload) ==> elemCount > 0
        invariant SkipTags(old(Rest())) == Plus(payload - old(payload), SkipTags(Rest()))
        decreases |buf| - payload
      {
        ghost var rest := Rest();
        TagCases(rest);
        ok := TagDecode();
        if !ok {
          return;
        }
        assert Rest() == rest[ReadHead(rest, 4).value.1..];
        TagCases(Rest());
        if payload == |buf| {
          return false;
        }
      }
      TagCases(Rest());
      return true;
    }

    /** `zcbor_any_skip_fixed`: all or nothing, working on a copy; one element less in the caller's count. */
    method AnySkip() returns (ok: bool)
      requires Valid()
      modifies this`payload, this`elemCount
      ensures Valid()
      ensures ok <==> SkipItem(old(Rest()), old(elemCount) > 0).Some?
      ensures ok ==> payload == old(payload) + SkipItem(old(Rest()), old(elemCount) > 0).value
      ensures ok ==> elemCount == Wrap32(old(elemCount) - 1)
      ensures !ok ==> payload == old(payload) && elemCount == old(elemCount)
      decreases |buf| - payload, 1
    {
      hide SkipUntagged, SkipTags, SkipItem;
      SkipItemSteps(Rest(), elemCount > 0);
      var copy := new State(buf, past, payload, elemCount, indefinite);
      ok := copy.SkipTagsOf();
      if !ok {
        return;
      }
      ghost var t := copy.payload - payload;
      assert copy.Rest() == Rest()[t..];
      ok := copy.SkipBody();
      if !ok {
        return;
      }
      payload := copy.payload;
      elemCount := Wrap32(elemCount - 1);
    }

    /** The rest of the skipper, on the copy: an untagged item. */
    method SkipBody() returns (ok: bool)
      requires Valid() && payload < |buf| && Major(buf[payload]) != 6
      modifies this
      ensures Valid()
      ensures ok <==> SkipUntagged(old(Rest()), old(elemCount) > 0).Some?
      ensures ok ==> payload == old(payload) + SkipUntagged(old(Rest()), old(elemCount) > 0).value
      decreases |buf| - payload, 0
    {
      hide SkipUntagged, SkipMany, SkipToBreak, ReadHead;
      var major := Major(buf[payload]);
      UntaggedIs(Rest(), elemCount > 0);
      if buf[payload] % 32 == 31 && (major == 4 || major == 5) {
        assert buf[payload + 1..] == Rest()[1..];
        payload := payload + 1;
        ok := SkipElements(LARGE_ELEM_COUNT, true);
        return;
      }
      ghost var rest := Rest();
      var value;
      ok, value := ValueExtract(8);
      if !ok {
        return;
      }
      assert Rest() == rest[ReadHead(rest, 8).value.1..];
      if major == 2 || major == 3 {
        if value > |buf| - payload {
          return false;
        }
        payload := payload + value;
      } else if major == 4 || major == 5 {
        if major == 5 {
          if value >= HALF32 {
            return false;
          }
          value := value * 2;
        }
        ok := SkipElements(Wrap32(value), false);
      }
    }

    /** The element loop of the skipper, with its end. */
    method SkipElements(count: uint32, open: bool) returns (ok: bool)
      requires Valid() && (open ==> count == LARGE_ELEM_COUNT)
      modifies this
      ensures Valid()
      ensures var r := if open then SkipToBreak(old(Rest())) else SkipMany(old(Rest()), count);
        (ok <==> r.Some?) && (ok ==> payload == old(payload) + r.value)
      decreases |buf| - payload, 2
    {
      hide SkipItem, SkipMany, SkipToBreak;
      elemCount := count;
      indefinite := open;
      while !AtEnd()
        invariant Valid() && old(payload) <= payload && indefinite == open
        invariant open ==> elemCount >= LARGE_ELEM_COUNT - (payload - old(payload))
        invariant !open ==> elemCount <= count
        invariant open ==> SkipToBreak(old(Rest())) == Plus(payload - old(payload), SkipToBreak(Rest()))
        invariant !open ==> SkipMany(old(Rest()), count) == Plus(payload - old(payload), SkipMany(Rest(), elemCount))
        decreases |buf| - payload
      {
        ghost var rest := Rest();
        ElementCases(rest, elemCount);
        ok := AnySkip();
        if !ok {
          return;
        }
        assert Rest() == rest[SkipItem(rest, true).value..];
      }
      ElementCases(Rest(), elemCount);
      if open {
        payload := payload + 1;
      }
      return true;
    }
  }

  /** A length further on. */
  function Plus(n: nat, r: Option<nat>): Option<nat>
  {
    if r.None? then None else Some(n + r.value)
  }

  /** What is left further on. */
  lemma RestLater(buf: seq<byte>, from: nat, to: nat)
    requires from <= to <= |buf|
    ensures buf[to..] == buf[from..][to - from..]
  {
  }

  /** SkipItem in two steps. */
  lemma SkipItemSteps(s: seq<byte>, counted: bool)
    ensures SkipItem(s, counted) ==
      if SkipTags(s).None? || (SkipTags(s).value > 0 && !counted) then None
      else Plus(SkipTags(s).value, SkipUntagged(s[SkipTags(s).value..], counted))
  {
    hide SkipTags, SkipUntagged;
  }

  lemma TagCases(s: seq<byte>)
    ensures s == [] ==> SkipTags(s) == None
    ensures s != [] && Major(s[0]) != 6 ==> SkipTags(s) == Some(0)
    ensures s != [] && Major(s[0]) == 6 ==> SkipTags(s) == if ReadHead(s, 4).None? then None
      else Plus(ReadHead(s, 4).value.1, SkipTags(s[ReadHead(s, 4).value.1..]))
  {
    hide ReadHead;
  }

  /** SkipUntagged by cases, for use where its parts are not looked into. */
  lemma UntaggedIs(s: seq<byte>, counted: bool)
    requires s != [] && Major(s[0]) != 6
    ensures var major := Major(s[0]);
      SkipUntagged(s, counted) ==
      if s[0] % 32 == 31 && (major == 4 || major == 5) then Plus(1, SkipToBreak(s[1..]))
      else if !counted || ReadHead(s, 8).None? then None
      else
        var value := ReadHead(s, 8).value.0;
        var h := ReadHead(s, 8).value.1;
        if major == 2 || major == 3 then if value > |s| - h then None else Some(h + value)
        else if major == 5 && value >= HALF32 then None
        else if major == 4 || major == 5 then Plus(h, SkipMany(s[h..], Wrap32(if major == 5 then 2 * value else value)))
        else Some(h)
  {
    hide ReadHead, SkipMany, SkipToBreak, SkipItem;
  }

  lemma ElementCases(s: seq<byte>, k: nat)
    ensures SkipMany(s, 0) == Some(0)
    ensures s == [] ==> SkipToBreak(s) == None && SkipItem(s, true) == None
    ensures s != [] && s[0] == BREAK ==> SkipToBreak(s) == Some(1)
    ensures k > 0 ==> SkipMany(s, k) == if SkipItem(s, true).None? then None
      else Plus(SkipItem(s, true).value, SkipMany(s[SkipItem(s, true).value..], k - 1))
    ensures s != [] && s[0] != BREAK ==> SkipToBreak(s) == if SkipItem(s, true).None? then None
      else Plus(SkipItem(s, true).value, SkipToBreak(s[SkipItem(s, true).value..]))
  {
    hide SkipUntagged, ReadHead;
  }
}
