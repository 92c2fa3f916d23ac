/** CoAP messages as bytes (section 3 of RFC 7252). Options are written by their distance from the one before, and read
    back by a parser that knows nothing of the writer. */
module CoapMessage {
  import opened Common

  const MOD16: int := 0x1_0000

  datatype Opt = Opt(number: nat, value: seq<byte>)

  /** A message of version 1. `kind` is 0 for a confirmable one. */
  datatype Message = Message(kind: nat, code: byte, id: nat, token: seq<byte>, options: seq<Opt>, payload: seq<byte>)

  const MARKER: byte := 0xFF

  // ----- Writing

  /** The four bits that stand for a delta or a length. */
  function Nibble(n: nat): (r: nat)
    ensures r <= 14
  {
    if n < 13 then n else if n < 269 then 13 else 14
  }

  /** The bytes that complete a delta or a length of 13 or more. */
  function Extension(n: nat): (s: seq<byte>)
    requires n < MOD16
    ensures |s| == if n < 13 then 0 else if n < 269 then 1 else 2
  {
    if n < 13 then [] else if n < 269 then [n - 13] else [(n - 269) / 256, (n - 269) % 256]
  }

  function OptionBytes(delta: nat, value: seq<byte>): (s: seq<byte>)
    requires delta < MOD16 && |value| < MOD16
    ensures |s| == 1 + |Extension(delta)| + |Extension(|value|)| + |value|
    ensures s[0] != MARKER
  {
    [Nibble(delta) * 16 + Nibble(|value|)] + Extension(delta) + Extension(|value|) + value
  }

  /** Options that can be written in this order after one numbered `last`. */
  predicate Writable(last: nat, options: seq<Opt>)
    decreases |options|
  {
    options == [] ||
    (last <= options[0].number < MOD16 && |options[0].value| < MOD16 && Writable(options[0].number, options[1..]))
  }

  function OptionsBytes(last: nat, options: seq<Opt>): (s: seq<byte>)
    requires Writable(last, options)
    decreases |options|
  {
    if options == [] then []
    else OptionBytes(options[0].number - last, options[0].value) + OptionsBytes(options[0].number, options[1..])
  }

  /** The number the next delta counts from. */
  function LastNumber(last: nat, options: seq<Opt>): nat
  {
    if options == [] then last else options[|options| - 1].number
  }

  function Tail(payload: seq<byte>): seq<byte>
  {
    if payload == [] then [] else [MARKER] + payload
  }

  function Header(kind: nat, code: byte, id: nat, token: seq<byte>): (s: seq<byte>)
    requires kind < 4 && id < MOD16 && |token| <= 8
    ensures |s| == 4 + |token|
  {
    [0x40 + kind * 16 + |token|, code, id / 256, id % 256] + token
  }

  predicate Valid(m: Message)
  {
    m.kind < 4 && m.id < MOD16 && |m.token| <= 8 && Writable(0, m.options)
  }

  function Encode(m: Message): seq<byte>
    requires Valid(m)
  {
    Header(m.kind, m.code, m.id, m.token) + OptionsBytes(0, m.options) + Tail(m.payload)
  }

  lemma OptionsCons(last: nat, o: Opt, more: seq<Opt>)
    ensures Writable(last, [o] + more) <==> last <= o.number < MOD16 && |o.value| < MOD16 && Writable(o.number, more)
    ensures Writable(last, [o] + more) ==>
      OptionsBytes(last, [o] + more) == OptionBytes(o.number - last, o.value) + OptionsBytes(o.number, more)
    ensures LastNumber(last, [o] + more) == LastNumber(o.number, more)
  {
    hide OptionBytes;
    assert ([o] + more)[1..] == more;
  }

  lemma NoOptions(last: nat)
    ensures Writable(last, []) && OptionsBytes(last, []) == [] && LastNumber(last, []) == last
  {
  }

  lemma {:induction false} OptionsConcat(last: nat, a: seq<Opt>, b: seq<Opt>)
    requires Writable(last, a) && Writable(LastNumber(last, a), b)
    ensures Writable(last, a + b)
    ensures OptionsBytes(last, a + b) == OptionsBytes(last, a) + OptionsBytes(LastNumber(last, a), b)
    ensures LastNumber(last, a + b) == LastNumber(LastNumber(last, a), b)
    decreases |a|
  {
    hide *;
    if a == [] {
      NoOptions(last);
      assert a + b == b;
    } else {
      var o, more := a[0], a[1..];
      assert a == [o] + more && a + b == [o] + (more + b);
      OptionsCons(last, o, more);
      OptionsConcat(o.number, more, b);
      OptionsCons(last, o, more + b);
    }
  }

  lemma OneOption(last: nat, o: Opt)
    requires last <= o.number < MOD16 && |o.value| < MOD16
    ensures Writable(last, [o]) && OptionsBytes(last, [o]) == OptionBytes(o.number - last, o.value)
  {
    OptionsCons(last, o, []);
    assert [o] + [] == [o];
  }

  // ----- Reading

  /** A delta or length, and how many extension bytes it took. */
  function ReadExtended(nibble: nat, s: seq<byte>): (r: Option<(nat, nat)>)
    ensures r.Some? ==> r.value.1 <= |s|
  {
    if nibble <= 12 then Some((nibble, 0))
    else if nibble == 13 && |s| >= 1 then Some((13 + s[0] as nat, 1))
    else if nibble == 14 && |s| >= 2 then Some((269 + 256 * (s[0] as nat) + s[1] as nat, 2))
    else None
  }

  /** One option, and what is left after it. */
  function ReadOption(s: seq<byte>, last: nat): (r: Option<(Opt, seq<byte>)>)
    requires s != []
    ensures r.Some? ==> |r.value.1| < |s|
  {
    match ReadExtended(s[0] / 16, s[1..])
    case None => None
    case Some((delta, d)) =>
      match ReadExtended(s[0] % 16, s[1 + d..])
      case None => None
      case Some((len, l)) =>
        if 1 + d + l + len > |s| then None
        else Some((Opt(last + delta, s[1 + d + l..1 + d + l + len]), s[1 + d + l + len..]))
  }

  /** The options and the payload. A marker with nothing after it is a format error. */
  function ReadOptions(s: seq<byte>, last: nat): Option<(seq<Opt>, seq<byte>)>
    decreases |s|
  {
    if s == [] then Some(([], []))
    else if s[0] == MARKER then (if |s| == 1 then None else Some(([], s[1..])))
    else match ReadOption(s, last)
      case None => None
      case Some((o, rest)) =>
        match ReadOptions(rest, o.number)
        case None => None
        case Some((more, payload)) => Some(([o] + more, payload))
  }

  function Parse(s: seq<byte>): Option<Message>
  {
    if |s| < 4 || s[0] / 64 != 1 || s[0] % 16 > 8 || |s| < 4 + s[0] % 16 then None
    else match ReadOptions(s[4 + s[0] % 16..], 0)
      case None => None
      case Some((options, payload)) =>
        Some(Message(s[0] / 16 % 4, s[1], (s[2] as nat) * 256 + s[3] as nat, s[4..4 + s[0] % 16], options, payload))
  }

  // ----- Reading what was written

  lemma ExtensionRead(n: nat, rest: seq<byte>)
    requires n < MOD16
    ensures ReadExtended(Nibble(n), Extension(n) + rest) == Some((n, |Extension(n)|))
  {
  }

  lemma Pieces(h: byte, d: seq<byte>, l: seq<byte>, v: seq<byte>, rest: seq<byte>)
    ensures var s := [h] + d + l + v + rest;
      && s[0] == h && s[1..] == d + (l + v + rest) && s[1 + |d|..] == l + (v + rest)
      && s[1 + |d| + |l|..1 + |d| + |l| + |v|] == v && s[1 + |d| + |l| + |v|..] == rest
  {
  }

  lemma OptionReadIs(s: seq<byte>, last: nat, delta: nat, d: nat, len: nat, l: nat)
    requires s != [] && ReadExtended(s[0] / 16, s[1..]) == Some((delta, d))
    requires d < |s| && ReadExtended(s[0] % 16, s[1 + d..]) == Some((len, l)) && 1 + d + l + len <= |s|
    ensures ReadOption(s, last) == Some((Opt(last + delta, s[1 + d + l..1 + d + l + len]), s[1 + d + l + len..]))
  {
    hide ReadExtended;
  }

  /** The two nibbles, the two extensions and the value are where the reader looks for them. */
  lemma OptionPieces(delta: nat, value: seq<byte>, rest: seq<byte>)
    requires delta < MOD16 && |value| < MOD16
    ensures var s := OptionBytes(delta, value) + rest;
      var d, l := 1 + |Extension(delta)|, 1 + |Extension(delta)| + |Extension(|value|)|;
      && s[0] / 16 == Nibble(delta) && s[0] % 16 == Nibble(|value|)
      && s[1..] == Extension(delta) + (Extension(|value|) + value + rest)
      && s[d..] == Extension(|value|) + (value + rest)
      && s[l..l + |value|] == value && s[l + |value|..] == rest
  {
    hide Nibble, Extension;
    Pieces(Nibble(delta) * 16 + Nibble(|value|), Extension(delta), Extension(|value|), value, rest);
  }

  lemma OptionRead(last: nat, o: Opt, rest: seq<byte>)
    requires last <= o.number < MOD16 && |o.value| < MOD16
    ensures ReadOption(OptionBytes(o.number - last, o.value) + rest, last) == Some((o, rest))
  {
    hide ReadOption, ReadExtended, Nibble, Extension, OptionBytes;
    var delta, len := o.number - last, |o.value|;
    OptionPieces(delta, o.value, rest);
    ExtensionRead(delta, Extension(len) + o.value + rest);
    ExtensionRead(len, o.value + rest);
    OptionReadIs(OptionBytes(delta, o.value) + rest, last, delta, |Extension(delta)|, len, |Extension(len)|);
  }

  lemma ReadOneMore(s: seq<byte>, last: nat, o: Opt, rest: seq<byte>, more: seq<Opt>, payload: seq<byte>)
    requires s != [] && s[0] != MARKER && ReadOption(s, last) == Some((o, rest))
    requires ReadOptions(rest, o.number) == Some((more, payload))
    ensures ReadOptions(s, last) == Some(([o] + more, payload))
  {
    hide ReadOption;
  }

  lemma NoOptionsRead(last: nat, payload: seq<byte>)
    ensures ReadOptions(Tail(payload), last) == Some(([], payload))
  {
    if payload != [] {
      assert Tail(payload)[1..] == payload;
    }
  }

  lemma {:induction false} OptionsRead(last: nat, options: seq<Opt>, payload: seq<byte>)
    requires Writable(last, options)
    ensures ReadOptions(OptionsBytes(last, options) + Tail(payload), last) == Some((options, payload))
    decreases |options|
  {
    hide *;
    if options == [] {
      NoOptionsRead(last, payload);
      NoOptions(last);
      assert [] + Tail(payload) == Tail(payload);
    } else {
      var o, more := options[0], options[1..];
      assert options == [o] + more;
      OptionsCons(last, o, more);
      OptionsRead(o.number, more, payload);
      var bytes, rest := OptionBytes(o.number - last, o.value), OptionsBytes(o.number, more) + Tail(payload);
      OptionRead(last, o, rest);
      assert bytes + OptionsBytes(o.number, more) + Tail(payload) == bytes + rest;
      ReadOneMore(bytes + rest, last, o, rest, more, payload);
    }
  }

  /** A marker with nothing after it is refused. */
  lemma {:induction false} BareMarkerRefused(last: nat, options: seq<Opt>)
    requires Writable(last, options)
    ensures ReadOptions(OptionsBytes(last, options) + [MARKER], last) == None
    decreases |options|
  {
    hide ReadOption, OptionBytes, OptionsBytes;
    if options == [] {
      NoOptions(last);
      assert [] + [MARKER] == [MARKER];
    } else {
      var o, more := options[0], options[1..];
      assert options == [o] + more;
      OptionsCons(last, o, more);
      BareMarkerRefused(o.number, more);
      var bytes, rest := OptionBytes(o.number - last, o.value), OptionsBytes(o.number, more) + [MARKER];
      OptionRead(last, o, rest);
      assert bytes + OptionsBytes(o.number, more) + [MARKER] == bytes + rest;
      assert (bytes + rest)[0] == bytes[0];
    }
  }

  lemma HeaderPieces(a: byte, b: byte, c: byte, d: byte, token: seq<byte>, options: seq<byte>, tail: seq<byte>)
    ensures var s := [a, b, c, d] + token + options + tail;
      && s[0] == a && s[1] == b && s[2] == c && s[3] == d
      && s[4..4 + |token|] == token && s[4 + |token|..] == options + tail
  {
  }

  /** A receiver reads back exactly the message that was written. */
  lemma ParseEncode(m: Message)
    requires Valid(m)
    ensures Parse(Encode(m)) == Some(m)
  {
    hide ReadOptions, OptionsBytes, Tail;
    var t := |m.token|;
    var b := 0x40 + m.kind * 16 + t;
    assert b / 64 == 1 && b % 16 == t && b / 16 % 4 == m.kind;
    HeaderPieces(b, m.code, m.id / 256, m.id % 256, m.token, OptionsBytes(0, m.options), Tail(m.payload));
    OptionsRead(0, m.options, m.payload);
  }

  /** Option headers byte for byte, as section 3.1 of RFC 7252 has them. */
  lemma OptionExamples()
    ensures OptionBytes(12, []) == [0xC0] && OptionBytes(13, []) == [0xD0, 0] && OptionBytes(268, []) == [0xD0, 255]
    ensures OptionBytes(269, []) == [0xE0, 0, 0] && OptionBytes(269 + 0x0102, []) == [0xE0, 1, 2]
    ensures OptionBytes(5, [97, 98]) == [0x52, 97, 98]
  {
  }

  lemma LongOptionExamples(v: seq<byte>)
    ensures |v| == 13 ==> OptionBytes(1, v) == [0x1D, 0] + v
    ensures |v| == 269 ==> OptionBytes(1, v) == [0x1E, 0, 0] + v
  {
  }

  /** A message byte for byte: a GET of /a with Observe, Accept and a payload. */
  lemma MessageExample()
    ensures var options := [Opt(6, []), Opt(11, [97]), Opt(17, [60])];
      && Writable(0, options)
      && Encode(Message(0, 1, 0x1234, [0xAA], options, [1, 2]))
         == [0x41, 0x01, 0x12, 0x34, 0xAA] + [0x60, 0x51, 97, 0x61, 60] + [0xFF, 1, 2]
  {
    ExampleOptions();
  }

  lemma ExampleOptions()
    ensures var options := [Opt(6, []), Opt(11, [97]), Opt(17, [60])];
      Writable(0, options) && OptionsBytes(0, options) == [0x60, 0x51, 97, 0x61, 60]
  {
    assert OptionBytes(6, []) == [0x60] && OptionBytes(5, [97]) == [0x51, 97] && OptionBytes(6, [60]) == [0x61, 60];
    hide OptionBytes, Writable, OptionsBytes;
    NoOptions(17);
    OptionsCons(11, Opt(17, [60]), []);
    OptionsCons(6, Opt(11, [97]), [Opt(17, [60])]);
    OptionsCons(0, Opt(6, []), [Opt(11, [97]), Opt(17, [60])]);
    assert [Opt(17, [60])] + [] == [Opt(17, [60])];
    assert [Opt(11, [97])] + [Opt(17, [60])] == [Opt(11, [97]), Opt(17, [60])];
    assert [Opt(6, [])] + [Opt(11, [97]), Opt(17, [60])] == [Opt(6, []), Opt(11, [97]), Opt(17, [60])];
  }
}
