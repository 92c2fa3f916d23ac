/** The packet buffer of a request as net/golioth/coap_req.c and net/golioth/coap_utils.c fill and refill it. */
module RequestBuffer {
  import opened Common
  import opened CoapMessage
  import opened UriPath
  import opened Engine
  import opened RequestPacket

  lemma {:induction false} AppendAllConcat(p: CoapPacket, a: seq<Opt>, b: seq<Opt>)
    ensures AppendAll(p, a + b)
      == if AppendAll(p, a).0 != 0 then AppendAll(p, a) else AppendAll(AppendAll(p, a).1, b)
    decreases |a|
  {
    hide AppendOption;
    if a == [] {
      assert a + b == b;
    } else {
      assert (a + b)[0] == a[0] && (a + b)[1..] == a[1..] + b;
      AppendAllConcat(AppendOption(p, a[0]).1, a[1..], b);
    }
  }

  lemma AppendOne(p: CoapPacket, o: Opt, more: seq<Opt>)
    ensures AppendAll(p, [o] + more)
      == if AppendOption(p, o).0 != 0 then AppendOption(p, o) else AppendAll(AppendOption(p, o).1, more)
    ensures AppendAll(p, [o]) == AppendOption(p, o)
  {
    hide AppendOption;
    assert ([o] + more)[1..] == more && [o][1..] == [];
  }

  lemma UriOptionsCons(g: seq<byte>, more: seq<seq<byte>>)
    ensures UriOptions([g] + more) == [Opt(URI_PATH, g)] + UriOptions(more)
    ensures UriOptions([]) == []
  {
  }

  lemma UriOptionsConcat(a: seq<seq<byte>>, b: seq<seq<byte>>)
    ensures UriOptions(a + b) == UriOptions(a) + UriOptions(b)
  {
  }

  lemma LeadingSlashesIs(s: seq<byte>, k: nat)
    requires k <= |s| && (forall i :: 0 <= i < k ==> s[i] == SLASH) && (k < |s| ==> s[k] != SLASH)
    ensures LeadingSlashes(s) == k
  {
  }

  /** What one pass over a path leaves to be appended. */
  predicate Remaining(p0: CoapPacket, p: CoapPacket, text: seq<byte>, rest: seq<byte>)
  {
    AppendAll(p0, UriOptions(Segments(text))) == AppendAll(p, UriOptions(Segments(rest)))
  }

  lemma SlashStep(p0: CoapPacket, p: CoapPacket, text: seq<byte>, g: seq<byte>, rest: seq<byte>)
    requires SLASH !in g && Remaining(p0, p, text, g + [SLASH] + rest)
    ensures var (err, q) := AppendOption(p, Opt(URI_PATH, g));
      if err != 0 then AppendAll(p0, UriOptions(Segments(text))) == (err, q) else Remaining(p0, q, text, rest)
  {
    hide AppendOption, AppendAll, Segments, UriOptions;
    SegmentsStep(g, rest);
    UriOptionsCons(g, Segments(rest));
    AppendOne(p, Opt(URI_PATH, g), UriOptions(Segments(rest)));
  }

  lemma LastStep(p0: CoapPacket, p: CoapPacket, text: seq<byte>, g: seq<byte>)
    requires SLASH !in g && Remaining(p0, p, text, g)
    ensures AppendAll(p0, UriOptions(Segments(text))) == if g == [] then (0, p) else AppendOption(p, Opt(URI_PATH, g))
  {
    hide AppendOption, Segments, UriOptions;
    NoSlash(g);
    UriOptionsCons(g, []);
    assert [g] + [] == [g] && [Opt(URI_PATH, g)] + [] == [Opt(URI_PATH, g)];
    AppendOne(p, Opt(URI_PATH, g), []);
  }

  /** Where the text of a path ends. */
  ghost function Limit(mem: seq<byte>, end: nat): (r: nat)
    requires 0 in mem
    ensures r <= StrLen(mem)
  {
    var from := LeadingSlashes(mem[..StrLen(mem)]);
    if end <= from then from else Min(end, StrLen(mem))
  }

  lemma PathTextIs(mem: seq<byte>, end: nat)
    requires 0 in mem
    ensures LeadingSlashes(mem[..StrLen(mem)]) <= Limit(mem, end)
    ensures PathText(mem, end) == mem[LeadingSlashes(mem[..StrLen(mem)])..Limit(mem, end)]
  {
  }

  lemma BelowLimit(mem: seq<byte>, end: nat, p: nat)
    requires 0 in mem && LeadingSlashes(mem[..StrLen(mem)]) <= p <= Limit(mem, end)
    ensures p < |mem|
    ensures p < Limit(mem, end) <==> p < end && mem[p] != 0
  {
    BeforeTerminator(mem, p);
    hide StrLen, LeadingSlashes;
  }

  lemma BeforeTerminator(mem: seq<byte>, p: nat)
    requires 0 in mem && p <= StrLen(mem)
    ensures p < StrLen(mem) <==> mem[p] != 0
  {
    var n := StrLen(mem);
    hide StrLen;
    assert p < n ==> mem[p] in mem[..n];
  }

  lemma SplitAt(s: seq<byte>, begin: nat, p: nat, limit: nat)
    requires begin <= p < limit <= |s|
    ensures s[begin..limit] == s[begin..p] + [s[p]] + s[p + 1..limit]
  {
  }

  lemma OneLonger(s: seq<byte>, begin: nat, p: nat)
    requires begin <= p < |s| && s[p] != SLASH && SLASH !in s[begin..p]
    ensures SLASH !in s[begin..p + 1]
  {
    assert s[begin..p + 1] == s[begin..p] + [s[p]];
  }

  /** The loop that trims preceding slashes. */
  method TrimSlashes(mem: seq<byte>) returns (begin: nat)
    requires 0 in mem
    ensures begin == LeadingSlashes(mem[..StrLen(mem)])
  {
    ghost var n := StrLen(mem);
    begin := 0;
    while mem[begin] == SLASH
      invariant begin <= n && forall i :: 0 <= i < begin ==> mem[i] == SLASH
      decreases n - begin
    {
      begin := begin + 1;
    }
    LeadingSlashesIs(mem[..n], begin);
  }

  /** `struct coap_packet request` and `request_wo_block2` of a request; the second shares the buffer of the first. */
  class RequestBuffer {
    const data: array<byte>
    const room: nat
    var offset: nat
    var last: nat
    var savedOffset: nat
    var savedLast: nat

    ghost predicate Sized()
      reads this
    {
      savedOffset <= offset <= room <= data.Length
    }

    ghost function Packet(): CoapPacket
      requires Sized()
      reads this, data
    {
      CoapPacket(data[..offset], last, room)
    }

    ghost function View(): Blocks
      requires Sized()
      reads this, data
    {
      Blocks(Packet(), savedOffset, savedLast)
    }

    /** The buffer of `golioth_coap_req_new`; Zephyr takes its size as a 16-bit number. */
    constructor (size: nat)
      ensures Sized() && View() == Blocks(CoapPacket([], 0, size % MOD16), 0, 0) && fresh(data)
    {
      data := new byte[size];
      room := size % MOD16;
      offset, last, savedOffset, savedLast := 0, 0, 0, 0;
    }

    /** Appends all of `bytes` or nothing. */
    method Append(bytes: seq<byte>) returns (err: int)
      requires Sized()
      modifies this`offset, data
      ensures Sized() && (err, Packet()) == AppendBytes(old(Packet()), bytes)
    {
      if offset + |bytes| > room {
        return -EINVAL;
      }
      forall i | 0 <= i < |bytes| {
        data[offset + i] := bytes[i];
      }
      offset := offset + |bytes|;
      assert data[..offset] == old(data[..offset]) + bytes;
      return 0;
    }

    /** `coap_packet_append_option`. */
    method AppendOption(o: Opt) returns (err: int)
      requires Sized()
      modifies this`offset, this`last, data
      ensures Sized() && (err, Packet()) == RequestPacket.AppendOption(old(Packet()), o)
    {
      if o.number < last || o.number >= MOD16 {
        return -EINVAL;
      }
      err := Append(OptionBytes(o.number - last, Short(o.value)));
      if err == 0 {
        last := o.number;
      }
    }

    /** `coap_packet_append_uri_path_from_string_range`: `end` counts from the start of the range. */
    method AppendPath(mem: seq<byte>, end: nat) returns (err: int)
      requires Sized() && 0 in mem
      modifies this`offset, this`last, data
      ensures Sized() && (err, Packet()) == AppendAll(old(Packet()), UriOptions(Segments(PathText(mem, end))))
    {
      hide AppendAll, Segments, UriOptions, RequestPacket.AppendOption, PathText;
      ghost var text, p0 := PathText(mem, end), Packet();
      var begin := TrimSlashes(mem);
      ghost var from, limit := begin, Limit(mem, end);
      PathTextIs(mem, end);
      assert Remaining(p0, Packet(), text, mem[begin..limit]);
      hide Remaining, Limit;
      var p := begin;
      while p < end && mem[p] != 0
        invariant Sized() && from <= begin <= p <= limit && SLASH !in mem[begin..p]
        invariant Remaining(p0, Packet(), text, mem[begin..limit])
        decreases limit - p
      {
        BelowLimit(mem, end, p);
        if mem[p] == SLASH {
          SplitAt(mem, begin, p, limit);
          SlashStep(p0, Packet(), text, mem[begin..p], mem[p + 1..limit]);
          err := AppendOption(Opt(URI_PATH, mem[begin..p]));
          if err != 0 {
            return;
          }
          begin := p + 1;
        } else {
          OneLonger(mem, begin, p);
        }
        p := p + 1;
      }
      BelowLimit(mem, end, p);
      LastStep(p0, Packet(), text, mem[begin..p]);
      if begin == p {
        return 0;
      }
      err := AppendOption(Opt(URI_PATH, mem[begin..p]));
    }

    /** `coap_packet_append_uri_path_from_pathv`. */
    method AppendPathv(pathv: seq<seq<byte>>) returns (err: int)
      requires Sized() && forall c :: c in pathv ==> 0 in c
      modifies this`offset, this`last, data
      ensures Sized() && (err, Packet()) == AppendAll(old(Packet()), UriOptions(PathvSegments(pathv)))
    {
      ghost var p0, all := Packet(), UriOptions(PathvSegments(pathv));
      for i := 0 to |pathv|
        invariant Sized() && AppendAll(p0, all) == AppendAll(Packet(), UriOptions(PathvSegments(pathv[i..])))
      {
        ghost var first, more := Segments(PathText(pathv[i], |pathv[i]|)), PathvSegments(pathv[i + 1..]);
        assert pathv[i..][1..] == pathv[i + 1..] && PathvSegments(pathv[i..]) == first + more;
        UriOptionsConcat(first, more);
        AppendAllConcat(Packet(), UriOptions(first), UriOptions(more));
        err := AppendPath(pathv[i], |pathv[i]|);
        if err != 0 {
          return;
        }
      }
      assert pathv[|pathv|..] == [];
      return 0;
    }

    /** `golioth_coap_req_cb` up to the packet being ready. */
    method Build(r: Request) returns (err: int)
      requires Proper(r) && Sized() && View() == Blocks(CoapPacket([], 0, BufferSize(r) % MOD16), 0, 0)
      modifies this`offset, this`last, data
      ensures Sized() && (err, Packet()) == BuildPacket(r)
    {
      err := Append(Header(0, r.code, r.id, r.token));
      if err != 0 {
        return;
      }
      err := AppendOptions(r);
      if err != 0 || r.data == [] {
        return;
      }
      err := Append([MARKER]);
      if err != 0 {
        return;
      }
      err := Append(Short(r.data));
    }

    /** The options of `golioth_coap_req_cb`. */
    method AppendOptions(r: Request) returns (err: int)
      requires Proper(r) && Sized()
      modifies this`offset, this`last, data
      ensures Sized() && (err, Packet()) == AppendAll(old(Packet()), RequestOptions(r))
    {
      OptionSteps(Packet(), r);
      if r.code == GET && r.observe {
        err := AppendOption(Opt(OBSERVE, UintBytes(0)));
        if err != 0 {
          return;
        }
      }
      err := AppendPathv(r.pathv);
      if err != 0 {
        return;
      }
      if r.code != GET && r.code != DELETE {
        err := AppendOption(Opt(CONTENT_FORMAT, UintBytes(FormatNumber(r.format))));
        if err != 0 {
          return;
        }
      }
      if !r.noBody {
        err := AppendOption(Opt(ACCEPT, UintBytes(FormatNumber(r.format))));
      }
    }

    /** `golioth_coap_req_next_block` on a request that is no observation, up to the timer. */
    method NextBlock(id: nat, ctx: BlockCtx) returns (err: int)
      requires Sized() && Placed(View()) && id < MOD16
      modifies this, data
      ensures Sized() && Placed(View()) && (err, View()) == NextPacket(old(View()), id, ctx)
    {
      data[2], data[3] := id / 256, id % 256;
      assert data[..offset] == WithId(old(data[..offset]), id);
      if savedOffset != 0 {
        offset, last := savedOffset, savedLast;
      } else {
        savedOffset, savedLast := offset, last;
      }
      assert data[..offset] == WithId(old(data[..offset]), id)[..offset];
      err := AppendOption(Opt(BLOCK2, UintBytes(WantedBlock(ctx))));
    }
  }

  /** The options one kind after the other, stopping at the first error. */
  lemma OptionSteps(p: CoapPacket, r: Request)
    requires Proper(r)
    ensures var a := AppendAll(p, ObserveOptions(r));
      var b := AppendAll(a.1, UriOptions(PathvSegments(r.pathv)));
      var c := AppendAll(b.1, ContentFormatOptions(r));
      AppendAll(p, RequestOptions(r))
      == if a.0 != 0 then a else if b.0 != 0 then b else if c.0 != 0 then c else AppendAll(c.1, AcceptOptions(r))
    ensures forall q, o :: AppendAll(q, [o]) == RequestPacket.AppendOption(q, o)
    ensures forall q :: AppendAll(q, []) == (0, q)
  {
    var observe, uri := ObserveOptions(r), UriOptions(PathvSegments(r.pathv));
    forall q, o
      ensures AppendAll(q, [o]) == RequestPacket.AppendOption(q, o)
    {
      AppendOne(q, o, []);
    }
    hide AppendAll, ObserveOptions, UriOptions, PathvSegments, ContentFormatOptions, AcceptOptions;
    AppendAllConcat(p, observe + uri + ContentFormatOptions(r), AcceptOptions(r));
    AppendAllConcat(p, observe + uri, ContentFormatOptions(r));
    AppendAllConcat(p, observe, uri);
  }
}
