/** Building a request's packet and asking for further blocks with it (net/golioth/coap_req.c), in one buffer. */
module RequestPacket {
  import opened Common
  import opened CoapMessage
  import opened UriPath
  import opened Engine

  const OBSERVE: nat := 6
  const CONTENT_FORMAT: nat := 12
  const ACCEPT: nat := 17
  const BLOCK2: nat := 23

  // ----- Zephyr's append functions, as section 3.1 of RFC 7252 has them; lengths there are 16-bit

  /** `struct coap_packet`: the bytes below the offset, the number of the last option, the most the buffer may hold. */
  datatype CoapPacket = CoapPacket(bytes: seq<byte>, last: nat, room: nat)

  function Short(s: seq<byte>): (r: seq<byte>)
    ensures |r| < MOD16 && (|s| < MOD16 ==> r == s)
  {
    s[..|s| % MOD16]
  }

  function AppendBytes(p: CoapPacket, bytes: seq<byte>): (int, CoapPacket)
  {
    if |p.bytes| + |bytes| > p.room then (-EINVAL, p) else (0, p.(bytes := p.bytes + bytes))
  }

  /** `coap_packet_append_option`: options come in ascending order. */
  function AppendOption(p: CoapPacket, o: Opt): (int, CoapPacket)
  {
    if o.number < p.last || o.number >= MOD16 then (-EINVAL, p)
    else
      var (err, q) := AppendBytes(p, OptionBytes(o.number - p.last, Short(o.value)));
      (err, if err == 0 then q.(last := o.number) else q)
  }

  /** Options one after the other, up to the first that does not fit. */
  function AppendAll(p: CoapPacket, options: seq<Opt>): (int, CoapPacket)
    decreases |options|
  {
    if options == [] then (0, p)
    else
      var (err, q) := AppendOption(p, options[0]);
      if err != 0 then (err, q) else AppendAll(q, options[1..])
  }

  /** An integer option takes as few bytes as it can (section 3.2 of RFC 7252). */
  function UintBytes(n: nat): (s: seq<byte>)
    ensures |s| <= n
  {
    if n == 0 then [] else UintBytes(n / 256) + [n % 256]
  }

  function UintValue(s: seq<byte>): nat
  {
    if s == [] then 0 else UintValue(s[..|s| - 1]) * 256 + s[|s| - 1]
  }

  lemma {:induction false} UintRoundTrip(n: nat)
    ensures UintValue(UintBytes(n)) == n
  {
    if n > 0 {
      UintRoundTrip(n / 256);
      assert UintBytes(n)[..|UintBytes(n)| - 1] == UintBytes(n / 256);
    }
  }

  lemma UintFits(n: nat)
    requires n < MOD32
    ensures |UintBytes(n)| <= 4
  {
    assert n / 256 / 256 / 256 / 256 == 0;
    assert |UintBytes(n)| <= 1 + |UintBytes(n / 256)|;
    assert |UintBytes(n / 256)| <= 1 + |UintBytes(n / 256 / 256)|;
    assert |UintBytes(n / 256 / 256)| <= 1 + |UintBytes(n / 256 / 256 / 256)|;
    assert |UintBytes(n / 256 / 256 / 256)| <= 1 + |UintBytes(n / 256 / 256 / 256 / 256)|;
  }

  // ----- What golioth_coap_req_cb builds

  const GET: byte := 1
  const DELETE: byte := 4
  const MAX_NON_PAYLOAD_LEN: nat := 128

  /** The content formats of section 12.3 of RFC 7252, and CBOR's. */
  datatype ContentFormat = OctetStream | Json | CborFormat

  function FormatNumber(f: ContentFormat): nat
  {
    match f
    case OctetStream => 42
    case Json => 50
    case CborFormat => 60
  }

  /** The arguments of `golioth_coap_req_cb`, and the token and message id drawn. Path components are memory that holds a
      terminator. */
  datatype Request = Request(code: byte, pathv: seq<seq<byte>>, format: ContentFormat, data: seq<byte>,
                             observe: bool, noBody: bool, token: seq<byte>, id: nat)

  predicate Proper(r: Request)
  {
    |r.token| == 8 && r.id < MOD16 && forall c :: c in r.pathv ==> 0 in c
  }

  function ObserveOptions(r: Request): seq<Opt>
  {
    if r.code == GET && r.observe then [Opt(OBSERVE, UintBytes(0))] else []
  }

  function ContentFormatOptions(r: Request): seq<Opt>
  {
    if r.code != GET && r.code != DELETE then [Opt(CONTENT_FORMAT, UintBytes(FormatNumber(r.format)))] else []
  }

  function AcceptOptions(r: Request): seq<Opt>
  {
    if r.noBody then [] else [Opt(ACCEPT, UintBytes(FormatNumber(r.format)))]
  }

  function RequestOptions(r: Request): seq<Opt>
    requires Proper(r)
  {
    ObserveOptions(r) + UriOptions(PathvSegments(r.pathv)) + ContentFormatOptions(r) + AcceptOptions(r)
  }

  /** The message a request is to become. */
  function RequestMessage(r: Request): Message
    requires Proper(r)
  {
    Message(0, r.code, r.id, r.token, RequestOptions(r), r.data)
  }

  function BufferSize(r: Request): nat
    requires Proper(r)
  {
    MAX_NON_PAYLOAD_LEN + Estimate(r.pathv) + |r.data|
  }

  /** The packet as it is built, with the first error. */
  function BuildPacket(r: Request): (int, CoapPacket)
    requires Proper(r)
  {
    var start := AppendBytes(CoapPacket([], 0, BufferSize(r) % MOD16), Header(0, r.code, r.id, r.token));
    if start.0 != 0 then start
    else
      var options := AppendAll(start.1, RequestOptions(r));
      if options.0 != 0 || r.data == [] then options
      else
        var marker := AppendBytes(options.1, [MARKER]);
        if marker.0 != 0 then marker else AppendBytes(marker.1, Short(r.data))
  }

  // ----- The next block

  /** The request's packet, and a copy of its header from before the Block2 option, of offset 0 until there is one. The
      copy shares the buffer. */
  datatype Blocks = Blocks(packet: CoapPacket, savedOffset: nat, savedLast: nat)

  predicate Placed(b: Blocks)
  {
    4 <= |b.packet.bytes| && (b.savedOffset == 0 || 4 <= b.savedOffset <= |b.packet.bytes|)
  }

  /** `coap_packet_set_id`. */
  function WithId(bytes: seq<byte>, id: nat): (r: seq<byte>)
    requires 4 <= |bytes| && id < MOD16
    ensures |r| == |bytes|
  {
    bytes[2 := id / 256][3 := id % 256]
  }

  /** The part of `golioth_coap_req_next_block` that prepares the packet. */
  function NextPacket(b: Blocks, id: nat, ctx: BlockCtx): (int, Blocks)
    requires Placed(b) && id < MOD16
  {
    var bytes := WithId(b.packet.bytes, id);
    var base := if b.savedOffset != 0 then CoapPacket(bytes[..b.savedOffset], b.savedLast, b.packet.room)
                else b.packet.(bytes := bytes);
    var (err, packet) := AppendOption(base, Opt(BLOCK2, UintBytes(WantedBlock(ctx))));
    (err, Blocks(packet, |base.bytes|, base.last))
  }

  /** A context the client can be in: offsets are size_t. */
  predicate Reachable(ctx: BlockCtx)
  {
    ctx.current < MOD32 && ctx.szx <= 6
  }

  datatype Ask = Ask(id: nat, ctx: BlockCtx)

  /** One get_next after the other, up to the first error. */
  function RunBlocks(b: Blocks, asks: seq<Ask>): (r: (int, Blocks))
    requires Placed(b) && forall a :: a in asks ==> a.id < MOD16
    ensures Placed(r.1)
  {
    if asks == [] then (0, b)
    else
      var before := RunBlocks(b, asks[..|asks| - 1]);
      if before.0 != 0 then before else NextPacket(before.1, asks[|asks| - 1].id, asks[|asks| - 1].ctx)
  }

  // ----- Everything fits

  lemma {:induction false} AppendAllFits(p: CoapPacket, options: seq<Opt>)
    requires Writable(p.last, options)
    ensures AppendAll(p, options).0 == 0 <==> |p.bytes| + |OptionsBytes(p.last, options)| <= p.room || options == []
    ensures AppendAll(p, options).0 == 0 ==>
      AppendAll(p, options).1
      == CoapPacket(p.bytes + OptionsBytes(p.last, options), LastNumber(p.last, options), p.room)
    decreases |options|
  {
    hide OptionBytes;
    if options != [] {
      var o, more := options[0], options[1..];
      assert options == [o] + more;
      OptionsCons(p.last, o, more);
      var (err, q) := AppendOption(p, o);
      if err == 0 {
        hide OptionsBytes;
        AppendAllFits(q, more);
        assert p.bytes + (OptionBytes(o.number - p.last, o.value) + OptionsBytes(o.number, more))
            == p.bytes + OptionBytes(o.number - p.last, o.value) + OptionsBytes(o.number, more);
      }
    } else {
      assert p.bytes + [] == p.bytes;
    }
  }

  lemma FormatBytes(f: ContentFormat)
    ensures UintBytes(FormatNumber(f)) == [FormatNumber(f)]
  {
    assert UintBytes(0) == [];
  }

  lemma SmallOptions(r: Request, last: nat)
    requires last <= URI_PATH
    ensures Writable(0, ObserveOptions(r)) && |OptionsBytes(0, ObserveOptions(r))| <= 1
    ensures LastNumber(0, ObserveOptions(r)) <= OBSERVE
    ensures Writable(last, ContentFormatOptions(r)) && |OptionsBytes(last, ContentFormatOptions(r))| <= 2
    ensures last <= LastNumber(last, ContentFormatOptions(r)) <= CONTENT_FORMAT
  {
    FormatBytes(r.format);
    OneOption(0, Opt(OBSERVE, []));
    OneOption(last, Opt(CONTENT_FORMAT, UintBytes(FormatNumber(r.format))));
  }

  lemma AcceptOption(r: Request, last: nat)
    requires last <= CONTENT_FORMAT
    ensures Writable(last, AcceptOptions(r)) && |OptionsBytes(last, AcceptOptions(r))| <= 3
    ensures LastNumber(last, AcceptOptions(r)) <= ACCEPT
  {
    FormatBytes(r.format);
    OneOption(last, Opt(ACCEPT, UintBytes(FormatNumber(r.format))));
  }

  /** The options come in ascending order, and take the estimate for the path and 6 bytes at most. */
  lemma OptionsFit(r: Request)
    requires Proper(r) && Estimate(r.pathv) < MOD16
    ensures Writable(0, RequestOptions(r)) && LastNumber(0, RequestOptions(r)) <= ACCEPT
    ensures |OptionsBytes(0, RequestOptions(r))| <= Estimate(r.pathv) + 6
  {
    hide Writable, OptionsBytes, LastNumber, ObserveOptions, UriOptions, ContentFormatOptions, AcceptOptions, PathvSegments,
      Estimate, StrLen;
    var observe, uri := ObserveOptions(r), UriOptions(PathvSegments(r.pathv));
    SmallOptions(r, 0);
    var a := LastNumber(0, observe);
    EstimateIsEnough(r.pathv, a);
    UriOptionsBytes(a, PathvSegments(r.pathv));
    OptionsConcat(0, observe, uri);
    var b := LastNumber(0, observe + uri);
    SmallOptions(r, b);
    OptionsConcat(0, observe + uri, ContentFormatOptions(r));
    var c := LastNumber(0, observe + uri + ContentFormatOptions(r));
    AcceptOption(r, c);
    OptionsConcat(0, observe + uri + ContentFormatOptions(r), AcceptOptions(r));
  }

  /** The buffer of 128 bytes, the estimate and the data holds the request, and a Block2 option besides. */
  lemma BuildSucceeds(r: Request)
    requires Proper(r) && BufferSize(r) < MOD16
    ensures Valid(RequestMessage(r))
    ensures BuildPacket(r)
      == (0, CoapPacket(Encode(RequestMessage(r)), LastNumber(0, RequestMessage(r).options), BufferSize(r)))
    ensures LastNumber(0, RequestMessage(r).options) <= BLOCK2
    ensures 12 <= |Encode(RequestMessage(r))| <= BufferSize(r) - 7
  {
    hide Writable, OptionsBytes, LastNumber, RequestOptions, Estimate, AppendAll;
    OptionsFit(r);
    var head := Header(0, r.code, r.id, r.token);
    var options := OptionsBytes(0, RequestOptions(r));
    AppendAllFits(CoapPacket(head, 0, BufferSize(r)), RequestOptions(r));
    NoOptions(0);
    assert [] + head == head;
    assert |Header(0, r.code, r.id, r.token)| == 12;
    if r.data == [] {
      assert head + options == head + options + Tail([]);
    } else {
      assert head + options + [MARKER] + r.data == head + options + Tail(r.data);
    }
  }

  function Values(options: seq<Opt>, number: nat): seq<seq<byte>>
  {
    if options == [] then []
    else (if options[0].number == number then [options[0].value] else []) + Values(options[1..], number)
  }

  lemma {:induction false} ValuesConcat(a: seq<Opt>, b: seq<Opt>, number: nat)
    ensures Values(a + b, number) == Values(a, number) + Values(b, number)
  {
    if a == [] {
      assert a + b == b;
    } else {
      assert (a + b)[1..] == a[1..] + b;
      ValuesConcat(a[1..], b, number);
    }
  }

  lemma {:induction false} UriValues(segments: seq<seq<byte>>, number: nat)
    ensures Values(UriOptions(segments), number) == if number == URI_PATH then segments else []
  {
    if segments != [] {
      assert UriOptions(segments)[1..] == UriOptions(segments[1..]);
      assert UriOptions(segments)[0] == Opt(URI_PATH, segments[0]);
      UriValues(segments[1..], number);
      assert segments == [segments[0]] + segments[1..];
    }
  }

  lemma OneValue(o: Opt, number: nat)
    ensures Values([o], number) == if o.number == number then [o.value] else []
  {
    assert [o][1..] == [];
  }

  lemma ValuesOf(r: Request, number: nat)
    requires Proper(r)
    ensures Values(RequestOptions(r), number)
      == Values(ObserveOptions(r), number) + Values(UriOptions(PathvSegments(r.pathv)), number)
         + Values(ContentFormatOptions(r), number) + Values(AcceptOptions(r), number)
  {
    hide Values, ObserveOptions, ContentFormatOptions, AcceptOptions, UriOptions, PathvSegments;
    var observe, uri := ObserveOptions(r), UriOptions(PathvSegments(r.pathv));
    ValuesConcat(observe, uri, number);
    ValuesConcat(observe + uri, ContentFormatOptions(r), number);
    ValuesConcat(observe + uri + ContentFormatOptions(r), AcceptOptions(r), number);
  }

  lemma SmallValues(r: Request, number: nat)
    ensures Values(ObserveOptions(r), number)
      == if r.code == 1 && r.observe && number == 6 then [[]] else []
    ensures Values(ContentFormatOptions(r), number) == if r.code != 1 && r.code != 4 && number == 12 then [[Registered(r)]] else []
    ensures Values(AcceptOptions(r), number) == if !r.noBody && number == 17 then [[Registered(r)]] else []
  {
    FormatBytes(r.format);
    OneValue(Opt(OBSERVE, UintBytes(0)), number);
    OneValue(Opt(CONTENT_FORMAT, UintBytes(FormatNumber(r.format))), number);
    OneValue(Opt(ACCEPT, UintBytes(FormatNumber(r.format))), number);
  }

  /** The content format's number in the registry of section 12.3 of RFC 7252. */
  function Registered(r: Request): byte
  {
    if r.format.OctetStream? then 42 else if r.format.Json? then 50 else 60
  }

  /** The path's segments are in the request in order (option 11), Observe in a GET that asks for it (6), Content-Format unless it is a
      GET or DELETE (12), Accept unless no body is wanted (17), and nothing else. */
  lemma RequestValues(r: Request)
    requires Proper(r)
    ensures Values(RequestOptions(r), 6) == if r.code == 1 && r.observe then [[]] else []
    ensures Values(RequestOptions(r), 11) == PathvSegments(r.pathv)
    ensures Values(RequestOptions(r), 12) == if r.code != 1 && r.code != 4 then [[Registered(r)]] else []
    ensures Values(RequestOptions(r), 17) == if r.noBody then [] else [[Registered(r)]]
    ensures forall number: nat :: number !in {6, 11, 12, 17} ==> Values(RequestOptions(r), number) == []
  {
    hide Values, PathvSegments, RequestOptions, Registered;
    forall number: nat
      ensures Values(RequestOptions(r), number) ==
        (if number == 6 && r.code == 1 && r.observe then [[]] else [])
        + (if number == 11 then PathvSegments(r.pathv) else [])
        + (if number == 12 && r.code != 1 && r.code != 4 then [[Registered(r)]] else [])
        + (if number == 17 && !r.noBody then [[Registered(r)]] else [])
    {
      ValuesOf(r, number);
      SmallValues(r, number);
      UriValues(PathvSegments(r.pathv), number);
    }
    assert [] + PathvSegments(r.pathv) + [] + [] == PathvSegments(r.pathv);
  }

  /** The message says what the request says: confirmable, method, id, token, payload, and each option with its values. */
  predicate ReadBack(m: Message, r: Request)
    requires Proper(r)
  {
    && m.kind == 0 && m.code == r.code && m.id == r.id && m.token == r.token && m.payload == r.data
    && Values(m.options, 6) == (if r.code == 1 && r.observe then [[]] else [])
    && Values(m.options, 11) == PathvSegments(r.pathv)
    && Values(m.options, 12) == (if r.code != 1 && r.code != 4 then [[Registered(r)]] else [])
    && Values(m.options, 17) == if r.noBody then [] else [[Registered(r)]]
  }

  /** A receiver of the packet reads exactly the request. */
  lemma RequestArrives(r: Request)
    requires Proper(r) && BufferSize(r) < MOD16
    ensures BuildPacket(r).0 == 0
    ensures Parse(BuildPacket(r).1.bytes) == Some(RequestMessage(r))
    ensures ReadBack(RequestMessage(r), r)
  {
    hide BuildPacket, Parse, Encode, Valid, RequestOptions, PathvSegments;
    BuildSucceeds(r);
    ParseEncode(RequestMessage(r));
    MessageReadsBack(r);
  }

  lemma MessageReadsBack(r: Request)
    requires Proper(r)
    ensures ReadBack(RequestMessage(r), r)
  {
    hide RequestOptions, PathvSegments, Values;
    RequestValues(r);
  }

  /** Every request of moderate size is built without an error and arrives. */
  lemma SmallRequestArrives(r: Request)
    requires Proper(r) && 14 * TotalLength(r.pathv) + 13 * |r.pathv| + 13 * |r.data| < 13 * (65536 - 128)
    ensures BuildPacket(r).0 == 0
    ensures var m := Parse(BuildPacket(r).1.bytes); m.Some? && ReadBack(m.value, r)
  {
    hide BuildPacket, Parse, ReadBack, Estimate, TotalLength;
    EstimateIsClose(r.pathv);
    RequestArrives(r);
  }

  // ----- Lengths that 16 bits cannot tell

  /** The options with their values as Zephyr takes them. */
  function CutOptions(options: seq<Opt>): (r: seq<Opt>)
    ensures |r| == |options|
  {
    seq(|options|, i requires 0 <= i < |options| => options[i].(value := Short(options[i].value)))
  }

  lemma {:induction false} AppendAllCut(p: CoapPacket, options: seq<Opt>)
    ensures AppendAll(p, CutOptions(options)) == AppendAll(p, options)
    decreases |options|
  {
    hide OptionBytes, AppendBytes;
    if options != [] {
      var cut := CutOptions(options);
      assert cut[0] == options[0].(value := Short(options[0].value)) && cut[1..] == CutOptions(options[1..]);
      assert Short(cut[0].value) == Short(options[0].value);
      AppendAllCut(AppendOption(p, options[0]).1, options[1..]);
    }
  }

  /** Numbers in ascending order. */
  predicate Rising(last: nat, options: seq<Opt>)
    decreases |options|
  {
    options == [] || (last <= options[0].number < MOD16 && Rising(options[0].number, options[1..]))
  }

  lemma {:induction false} CutWritable(last: nat, options: seq<Opt>)
    requires Rising(last, options)
    ensures Writable(last, CutOptions(options))
    decreases |options|
  {
    if options != [] {
      CutWritable(options[0].number, options[1..]);
      assert CutOptions(options)[1..] == CutOptions(options[1..]);
    }
  }

  lemma {:induction false} RisingConcat(last: nat, a: seq<Opt>, b: seq<Opt>)
    requires Rising(last, a) && Rising(LastNumber(last, a), b)
    ensures Rising(last, a + b) && LastNumber(last, a + b) == LastNumber(LastNumber(last, a), b)
    decreases |a|
  {
    if a == [] {
      assert a + b == b;
    } else {
      assert (a + b)[0] == a[0] && (a + b)[1..] == a[1..] + b;
      RisingConcat(a[0].number, a[1..], b);
    }
  }

  lemma {:induction false} UriRising(last: nat, segments: seq<seq<byte>>)
    requires last <= URI_PATH
    ensures Rising(last, UriOptions(segments)) && LastNumber(last, UriOptions(segments)) <= URI_PATH
    decreases |segments|
  {
    if segments != [] {
      assert UriOptions(segments)[1..] == UriOptions(segments[1..]);
      UriRising(URI_PATH, segments[1..]);
    }
  }

  lemma RequestRising(r: Request)
    requires Proper(r)
    ensures Rising(0, RequestOptions(r))
  {
    var observe, uri := ObserveOptions(r), UriOptions(PathvSegments(r.pathv));
    UriRising(LastNumber(0, observe), PathvSegments(r.pathv));
    hide UriOptions, PathvSegments;
    OneRising(0, Opt(OBSERVE, UintBytes(0)));
    RisingConcat(0, observe, uri);
    OneRising(LastNumber(0, observe + uri), Opt(CONTENT_FORMAT, UintBytes(FormatNumber(r.format))));
    RisingConcat(0, observe + uri, ContentFormatOptions(r));
    OneRising(LastNumber(0, observe + uri + ContentFormatOptions(r)), Opt(ACCEPT, UintBytes(FormatNumber(r.format))));
    RisingConcat(0, observe + uri + ContentFormatOptions(r), AcceptOptions(r));
  }

  lemma OneRising(last: nat, o: Opt)
    requires o.number < MOD16
    ensures last <= o.number ==> Rising(last, [o])
  {
    assert [o][1..] == [];
  }

  /** Every segment and the data are of lengths that 16 bits can tell. */
  predicate Tellable(r: Request)
    requires Proper(r)
  {
    |r.data| < MOD16 && forall g :: g in PathvSegments(r.pathv) ==> |g| < MOD16
  }

  lemma CutConcat(a: seq<Opt>, b: seq<Opt>)
    ensures CutOptions(a + b) == CutOptions(a) + CutOptions(b)
  {
  }

  lemma CutSegments(segments: seq<seq<byte>>)
    ensures CutOptions(UriOptions(segments)) == UriOptions(segments) <==> forall g :: g in segments ==> |g| < MOD16
  {
    var options, cut := UriOptions(segments), CutOptions(UriOptions(segments));
    assert forall i :: 0 <= i < |options| ==> options[i].value in segments;
    if cut == options {
      forall g | g in segments
        ensures |g| < MOD16
      {
        var i :| 0 <= i < |segments| && segments[i] == g;
        assert options[i] == cut[i];
      }
    }
  }

  lemma SmallUncut(r: Request)
    ensures CutOptions(ObserveOptions(r)) == ObserveOptions(r)
    ensures CutOptions(ContentFormatOptions(r)) == ContentFormatOptions(r)
    ensures CutOptions(AcceptOptions(r)) == AcceptOptions(r)
  {
    FormatBytes(r.format);
  }

  lemma MiddleSame(a: seq<Opt>, u: seq<Opt>, v: seq<Opt>, b: seq<Opt>)
    requires |u| == |v|
    ensures a + u + b == a + v + b <==> u == v
  {
    assert (a + u + b)[|a|..|a| + |u|] == u && (a + v + b)[|a|..|a| + |v|] == v;
  }

  lemma CutIsWhole(r: Request)
    requires Proper(r)
    ensures CutOptions(RequestOptions(r)) == RequestOptions(r) <==> forall g :: g in PathvSegments(r.pathv) ==> |g| < MOD16
  {
    hide PathvSegments, CutOptions, ObserveOptions, UriOptions, ContentFormatOptions, AcceptOptions;
    var segments := PathvSegments(r.pathv);
    var observe, uri, format, accept := ObserveOptions(r), UriOptions(segments), ContentFormatOptions(r), AcceptOptions(r);
    SmallUncut(r);
    CutConcat(observe, uri);
    CutConcat(observe + uri, format);
    CutConcat(observe + uri + format, accept);
    CutSegments(segments);
    var cut := CutOptions(uri);
    assert observe + uri + format + accept == observe + uri + (format + accept);
    assert observe + cut + format + accept == observe + cut + (format + accept);
    MiddleSame(observe, uri, cut, format + accept);
  }

  /** The bytes of a packet that was built. */
  lemma BuiltBytes(r: Request)
    requires Proper(r) && BuildPacket(r).0 == 0
    ensures Writable(0, CutOptions(RequestOptions(r)))
    ensures BuildPacket(r).1.bytes == Header(0, r.code, r.id, r.token)
      + OptionsBytes(0, CutOptions(RequestOptions(r))) + (if r.data == [] then [] else [MARKER] + Short(r.data))
  {
    hide RequestOptions, CutOptions, AppendAll, OptionsBytes, Header, Estimate;
    var head := Header(0, r.code, r.id, r.token);
    RequestRising(r);
    CutWritable(0, RequestOptions(r));
    var start := CoapPacket(head, 0, BufferSize(r) % MOD16);
    AppendAllCut(start, RequestOptions(r));
    AppendAllFits(start, CutOptions(RequestOptions(r)));
    assert [] + head == head;
    var options := OptionsBytes(0, CutOptions(RequestOptions(r)));
    assert head + options + [] == head + options;
    assert head + options + [MARKER] + Short(r.data) == head + options + ([MARKER] + Short(r.data));
  }

  /** Whenever building a request gives no error, a receiver reads back exactly the request if and only if the data and all path
      segments have lengths that 16 bits can tell; longer ones go out cut, without an error. */
  lemma ArrivesExactly(r: Request)
    requires Proper(r) && BuildPacket(r).0 == 0
    ensures Parse(BuildPacket(r).1.bytes) == Some(RequestMessage(r)) <==> Tellable(r)
    ensures ReadBack(RequestMessage(r), r)
  {
    hide ReadBack, BuildPacket, Parse, CutOptions, RequestOptions, OptionsBytes, Header, PathvSegments;
    MessageReadsBack(r);
    BuiltBytes(r);
    CutIsWhole(r);
    var cut := CutOptions(RequestOptions(r));
    if r.data != [] && Short(r.data) == [] {
      NoDataBehindMarker(0, r.code, r.id, r.token, cut);
    } else {
      var m := Message(0, r.code, r.id, r.token, cut, Short(r.data));
      ParseEncode(m);
    }
  }

  lemma NoDataBehindMarker(kind: nat, code: byte, id: nat, token: seq<byte>, options: seq<Opt>)
    requires kind < 4 && id < MOD16 && |token| <= 8 && Writable(0, options)
    ensures Parse(Header(kind, code, id, token) + OptionsBytes(0, options) + ([MARKER] + [])) == None
  {
    hide ReadOptions, OptionsBytes;
    var t := |token|;
    var b := 0x40 + kind * 16 + t;
    assert b / 64 == 1 && b % 16 == t;
    HeaderPieces(b, code, id / 256, id % 256, token, OptionsBytes(0, options), [MARKER]);
    assert [MARKER] + [] == [MARKER];
    BareMarkerRefused(0, options);
  }

  /** Such a request does go out without an error, if the rest is small. */
  lemma LongDataIsCut(r: Request)
    requires Proper(r) && |r.data| > MOD16 && |r.data| % MOD16 != 0
    requires MAX_NON_PAYLOAD_LEN + Estimate(r.pathv) + |r.data| % MOD16 < MOD16
    ensures BuildPacket(r).0 == 0
    ensures Parse(BuildPacket(r).1.bytes) == Some(RequestMessage(r).(payload := r.data[..|r.data| % MOD16]))
    ensures Parse(BuildPacket(r).1.bytes) != Some(RequestMessage(r))
  {
    hide Parse, RequestOptions, Estimate, BuildPacket, PathvSegments;
    var cut := r.(data := Short(r.data));
    RequestArrives(cut);
    SameOptions(r, cut.data);
    CutBuilds(r);
  }

  lemma CutBuilds(r: Request)
    requires Proper(r) && |r.data| > MOD16 && |r.data| % MOD16 != 0
    ensures BuildPacket(r) == BuildPacket(r.(data := Short(r.data)))
  {
    hide RequestOptions, Estimate, AppendAll, PathvSegments;
    SameOptions(r, Short(r.data));
    assert BufferSize(r) % MOD16 == BufferSize(r.(data := Short(r.data))) % MOD16;
    assert Short(Short(r.data)) == Short(r.data);
  }

  lemma SameOptions(r: Request, data: seq<byte>)
    requires Proper(r)
    ensures RequestOptions(r.(data := data)) == RequestOptions(r)
  {
  }

  // ----- Block2 over any number of blocks

  /** What a receiver makes of a packet to which a Block2 option was added at the end: with a payload there, the option is
      taken for more payload. */
  function Asking(m: Message, a: Ask): Message
  {
    var option := Opt(BLOCK2, UintBytes(WantedBlock(a.ctx)));
    if m.payload == [] then m.(id := a.id, options := m.options + [option])
    else m.(id := a.id,
            payload := m.payload + OptionBytes((BLOCK2 - LastNumber(0, m.options)) % MOD16, Short(option.value)))
  }

  lemma TimesMore(q: nat, a: nat, b: nat)
    requires a <= b
    ensures q * a <= q * b
  {
    assert q * b == q * a + q * (b - a);
  }

  lemma WantedIsSmall(ctx: BlockCtx)
    requires Reachable(ctx)
    ensures WantedBlock(ctx) < MOD32 && |UintBytes(WantedBlock(ctx))| <= 4
  {
    hide Quotient, BlockSize, UintBytes;
    var size := BlockSize(ctx.szx);
    var q := Quotient(ctx.current, size);
    TimesMore(q, 16, size);
    assert WantedBlock(ctx) == q * 16 + ctx.szx;
    UintFits(WantedBlock(ctx));
  }

  lemma IdEncodes(m: Message, id: nat)
    requires Valid(m) && id < MOD16
    ensures |Encode(m)| >= 4 && WithId(Encode(m), id) == Encode(m.(id := id))
  {
    hide OptionsBytes, Tail;
  }

  /** What a receiver makes of it is the original packet with a new id and the Block2 option behind it. */
  lemma AskingEncodes(m: Message, a: Ask)
    requires Valid(m) && a.id < MOD16 && Reachable(a.ctx) && LastNumber(0, m.options) <= BLOCK2
    ensures |UintBytes(WantedBlock(a.ctx))| <= 4
    ensures Valid(Asking(m, a))
    ensures Encode(Asking(m, a)) == Encode(m.(id := a.id))
      + OptionBytes(BLOCK2 - LastNumber(0, m.options), UintBytes(WantedBlock(a.ctx)))
  {
    hide Encode, OptionsBytes, OptionBytes, UintBytes, WantedBlock, Writable, LastNumber;
    WantedIsSmall(a.ctx);
    var option := Opt(BLOCK2, UintBytes(WantedBlock(a.ctx)));
    if m.payload == [] {
      OneOption(LastNumber(0, m.options), option);
      OptionsConcat(0, m.options, [option]);
      MoreOptions(m.(id := a.id), option);
    } else {
      MorePayload(m.(id := a.id), OptionBytes(BLOCK2 - LastNumber(0, m.options), option.value));
    }
  }

  lemma MoreOptions(m: Message, option: Opt)
    requires Valid(m) && m.payload == [] && Valid(m.(options := m.options + [option]))
    requires LastNumber(0, m.options) <= option.number < MOD16 && |option.value| < MOD16
    requires OptionsBytes(0, m.options + [option]) ==
      OptionsBytes(0, m.options) + OptionBytes(option.number - LastNumber(0, m.options), option.value)
    ensures Encode(m.(options := m.options + [option])) ==
      Encode(m) + OptionBytes(option.number - LastNumber(0, m.options), option.value)
  {
    hide Header, OptionsBytes, OptionBytes, Writable, LastNumber;
    var bytes := OptionBytes(option.number - LastNumber(0, m.options), option.value);
    BehindOptions(Header(m.kind, m.code, m.id, m.token), OptionsBytes(0, m.options), bytes);
  }

  lemma MorePayload(m: Message, bytes: seq<byte>)
    requires Valid(m) && m.payload != []
    ensures Encode(m.(payload := m.payload + bytes)) == Encode(m) + bytes
  {
    hide Header, OptionsBytes;
    BehindPayload(Header(m.kind, m.code, m.id, m.token) + OptionsBytes(0, m.options), m.payload, bytes);
  }

  lemma BehindOptions(head: seq<byte>, options: seq<byte>, bytes: seq<byte>)
    ensures head + (options + bytes) + Tail([]) == head + options + Tail([]) + bytes
  {
  }

  lemma BehindPayload(front: seq<byte>, payload: seq<byte>, bytes: seq<byte>)
    requires payload != []
    ensures front + Tail(payload + bytes) == front + Tail(payload) + bytes
  {
  }

  /** After any number of get_next calls the packet is the one first built with a new message id, followed by one Block2
      option for the block asked for last. */
  lemma {:induction false} BlocksRebuilt(m: Message, room: nat, asks: seq<Ask>)
    requires Valid(m) && LastNumber(0, m.options) <= BLOCK2 && |Encode(m)| + 7 <= room && |Encode(m)| >= 4
    requires forall a :: a in asks ==> a.id < MOD16 && Reachable(a.ctx)
    ensures asks != [] ==> Valid(Asking(m, asks[|asks| - 1]))
    ensures var last := LastNumber(0, m.options);
      RunBlocks(Blocks(CoapPacket(Encode(m), last, room), 0, 0), asks)
      == if asks == [] then (0, Blocks(CoapPacket(Encode(m), last, room), 0, 0))
         else (0, Blocks(CoapPacket(Encode(Asking(m, asks[|asks| - 1])), BLOCK2, room), |Encode(m)|, last))
  {
    if asks != [] {
      hide Encode, Valid, Asking, LastNumber, WantedBlock, Reachable;
      var init, a := asks[..|asks| - 1], asks[|asks| - 1];
      BlocksRebuilt(m, room, init);
      NextAsks(m, room, a, if init == [] then None else Some(init[|init| - 1]));
    }
  }

  lemma NextAsks(m: Message, room: nat, a: Ask, before: Option<Ask>)
    requires Valid(m) && LastNumber(0, m.options) <= BLOCK2 && |Encode(m)| + 7 <= room && |Encode(m)| >= 4
    requires a.id < MOD16 && Reachable(a.ctx)
    requires before.Some? ==> before.value.id < MOD16 && Reachable(before.value.ctx) && Valid(Asking(m, before.value))
    ensures Valid(Asking(m, a))
    ensures var last := LastNumber(0, m.options);
      var b := if before.None? then Blocks(CoapPacket(Encode(m), last, room), 0, 0)
               else Blocks(CoapPacket(Encode(Asking(m, before.value)), BLOCK2, room), |Encode(m)|, last);
      && Placed(b)
      && NextPacket(b, a.id, a.ctx) == (0, Blocks(CoapPacket(Encode(Asking(m, a)), BLOCK2, room), |Encode(m)|, last))
  {
    hide Encode, Valid, Asking, LastNumber, WantedBlock, Reachable, UintBytes;
    var last := LastNumber(0, m.options);
    AskingEncodes(m, a);
    IdEncodes(m, a.id);
    if before.Some? {
      AskingEncodes(m, before.value);
      IdEncodes(m, before.value.id);
      IdTwice(m, before.value.id, a.id);
      var first := Encode(m.(id := before.value.id));
      var bytes := Encode(Asking(m, before.value));
      assert WithId(bytes, a.id)[..|first|] == WithId(first, a.id);
    }
  }

  lemma IdTwice(m: Message, first: nat, second: nat)
    requires Valid(m) && first < MOD16 && second < MOD16
    ensures Valid(m.(id := first)) && Valid(m.(id := second)) && |Encode(m.(id := first))| == |Encode(m)| >= 4
    ensures WithId(Encode(m.(id := first)), second) == Encode(m.(id := second))
  {
    hide Encode;
    IdEncodes(m, first);
    IdEncodes(m.(id := first), second);
  }

  lemma BlocksParsed(r: Request, asks: seq<Ask>)
    requires Proper(r) && BufferSize(r) < MOD16
    requires asks != [] && forall a :: a in asks ==> a.id < MOD16 && Reachable(a.ctx)
    ensures Placed(Blocks(BuildPacket(r).1, 0, 0))
    ensures var (err, b) := RunBlocks(Blocks(BuildPacket(r).1, 0, 0), asks);
      && err == 0 && |b.packet.bytes| <= |BuildPacket(r).1.bytes| + 7
      && Parse(b.packet.bytes) == Some(Asking(RequestMessage(r), asks[|asks| - 1]))
  {
    var m, a := RequestMessage(r), asks[|asks| - 1];
    hide *;
    BuildSucceeds(r);
    BlocksRebuilt(m, BufferSize(r), asks);
    AskedLength(m, a);
    ParseEncode(Asking(m, a));
  }

  lemma AskedLength(m: Message, a: Ask)
    requires Valid(m) && a.id < MOD16 && Reachable(a.ctx) && LastNumber(0, m.options) <= BLOCK2
    ensures Valid(Asking(m, a)) && |Encode(Asking(m, a))| <= |Encode(m)| + 7
  {
    hide Encode, Valid, Asking, LastNumber, Reachable, UintBytes, WantedBlock;
    AskingEncodes(m, a);
    IdEncodes(m, a.id);
  }

  /** What a receiver should find when a block is asked for: the request with a new id, and one Block2 option. */
  predicate AsksFor(m: Message, r: Request, a: Ask)
    requires Proper(r)
  {
    m == RequestMessage(r).(id := a.id, options := RequestOptions(r) + [Opt(BLOCK2, UintBytes(WantedBlock(a.ctx)))])
    && Values(m.options, 23) == [UintBytes(WantedBlock(a.ctx))]
  }

  lemma AskingFound(r: Request, a: Ask)
    requires Proper(r)
    ensures var m := Asking(RequestMessage(r), a);
      && m.token == r.token && m.id == a.id
      && (AsksFor(m, r, a) <==> r.data == [])
      && (r.data != [] ==> Values(m.options, 23) == [] && r.data < m.payload)
  {
    hide LastNumber, WantedBlock, UintBytes, RequestOptions, Values;
    RequestValues(r);
    var option := Opt(BLOCK2, UintBytes(WantedBlock(a.ctx)));
    ValuesConcat(RequestOptions(r), [option], BLOCK2);
    OneValue(option, BLOCK2);
    assert [] + [option.value] == [option.value];
  }

  /** For every request, and whatever blocks were asked for so far: the packet keeps its token, is at most 7 bytes longer than
      at first, and asks for the block wanted last, if and only if the request has no payload. With one, a receiver finds no
      Block2 option at all, but a longer payload. */
  lemma BlockRequestArrives(r: Request, asks: seq<Ask>)
    requires Proper(r) && BufferSize(r) < MOD16
    requires asks != [] && forall a :: a in asks ==> a.id < MOD16 && Reachable(a.ctx)
    ensures Placed(Blocks(BuildPacket(r).1, 0, 0))
    ensures var (err, b) := RunBlocks(Blocks(BuildPacket(r).1, 0, 0), asks);
      && err == 0 && |b.packet.bytes| <= |BuildPacket(r).1.bytes| + 7
      && var parsed := Parse(b.packet.bytes);
         && parsed.Some? && parsed.value.token == r.token && parsed.value.id == asks[|asks| - 1].id
         && (AsksFor(parsed.value, r, asks[|asks| - 1]) <==> r.data == [])
         && (r.data != [] ==> Values(parsed.value.options, 23) == [] && r.data < parsed.value.payload)
  {
    hide *;
    BlocksParsed(r, asks);
    AskingFound(r, asks[|asks| - 1]);
  }
}
