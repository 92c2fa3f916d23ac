/** Settings updates (net/golioth/settings.c): each pair of a CBOR map goes to the user's callback or into the list of errors
    sent back. */
module Settings {
  import opened Common
  import opened Cbor
  import opened CborSkip
  import opened MapTable
  import opened MapLookup

  // ----- Keys and values

  const MAX_NAME_LEN: nat := 63
  const VALUE_FORMAT_NOT_VALID := 3

  /** The C string in a character array: what comes before the first zero. */
  function CString(s: seq<byte>): (r: seq<byte>)
    ensures r <= s && 0 !in r
    ensures |r| < |s| ==> s[|r|] == 0
  {
    if s == [] || s[0] == 0 then [] else [s[0]] + CString(s[1..])
  }

  /** The key handed on for a label: at most 63 bytes of it, as a C string. It ends where the label ends, at the label's first
      zero, or after 63 bytes. */
  function KeyFor(name: seq<byte>): (key: seq<byte>)
    ensures |key| <= 63 && key <= name && 0 !in key
    ensures |key| == 63 || |key| == |name| || name[|key|] == 0
  {
    CString(name[..Min(MAX_NAME_LEN, |name|)])
  }

  /** A value of a supported type; floats stay as their bits. */
  datatype Setting = TextSetting(text: seq<byte>) | IntSetting(n: int) | FloatSetting(size: nat, bits: nat) | BoolSetting(b: bool)

  /** A float or boolean (section 3.3 of RFC 8949). */
  function ReadSimple(s: seq<byte>): (r: Read<Setting>)
    ensures r.Got? ==> 1 <= r.length <= |s|
  {
    if s == [] || Major(s[0]) != 7 then Failed
    else if s[0] % 32 == 20 || s[0] % 32 == 21 then Got(BoolSetting(s[0] % 32 == 21), 1)
    else if 25 <= s[0] % 32 <= 27 then
      match ReadHead(s, 8)
      case None => Failed
      case Some((n, h)) => Got(FloatSetting(h - 1, n), h)
    else Failed
  }

  /** The type dispatch of `settings_decode`. */
  function ReadSetting(s: seq<byte>): (r: Read<Setting>)
    ensures r.Got? ==> 1 <= r.length <= |s|
  {
    if s == [] then Failed
    else if Major(s[0]) == 3 then
      match ReadText(s)
      case Failed => Failed
      case Got(text, n) => Got(TextSetting(text), n)
    else if Major(s[0]) <= 1 then
      match ReadInt64(s)
      case Failed => Failed
      case Got(n, h) => Got(IntSetting(n), h)
    else ReadSimple(s)
  }

  // ----- The decode loop on bytes

  datatype Update = Update(key: seq<byte>, value: Setting)
  // `enum golioth_settings_status`, a C int.
  type Status = x: int | -HALF32 <= x < HALF32

  datatype Rejection = Rejection(key: seq<byte>, code: Status)

  /** What has happened so far: the callbacks made and the errors noted. */
  datatype Outcome = Outcome(updates: seq<Update>, errors: seq<Rejection>)

  /** The user's callback: the status it returns, 0 for success, given all it was called with. */
  type Handler = seq<Update> -> Status

  function Apply(out: Outcome, update: Update, handler: Handler): Outcome
  {
    var updates := out.updates + [update];
    var status := handler(updates);
    Outcome(updates, if status != 0 then out.errors + [Rejection(update.key, status)] else out.errors)
  }

  function Reject(out: Outcome, key: seq<byte>): Outcome
  {
    out.(errors := out.errors + [Rejection(key, VALUE_FORMAT_NOT_VALID)])
  }

  /** The same from `n` bytes before. */
  function Further(n: nat, r: (int, Outcome, nat)): (int, Outcome, nat)
  {
    (r.0, r.1, n + r.2)
  }

  /** The loop of `settings_decode` and the map's end: error, outcome, bytes consumed. */
  function SettingsLoop(s: seq<byte>, past: byte, left: Option<nat>, handler: Handler, out: Outcome): (int, Outcome, nat)
    decreases |s|
  {
    if AtMapEnd(s, past, left) then
      if left.None? && s == [] then (-EBADMSG, out, 0) else (0, out, if left.None? then 1 else 0)
    else match ReadText(s)
      case Failed => (-EBADMSG, out, 0)
      case Got(name, k) =>
        var key := KeyFor(name);
        match ReadSetting(s[k..])
        case Got(value, n) =>
          Further(k + n, SettingsLoop(s[k + n..], past, OneLess(left), handler, Apply(out, Update(key, value), handler)))
        case Failed =>
          match SkipItem(s[k..], true)
          case None => (-EBADMSG, Reject(out, key), 0)
          case Some(n) =>
            Further(k + n, SettingsLoop(s[k + n..], past, OneLess(left), handler, Reject(out, key)))
  }

  const NIL: byte := 0xF6

  /** `settings_decode`. */
  function DecodeAll(s: seq<byte>, past: byte, handler: Handler): (int, Outcome, nat)
  {
    var none := Outcome([], []);
    if s != [] && s[0] == NIL then (-ENOENT, none, 1)
    else match ReadStart(s, 5)
      case Failed => (-EBADMSG, none, 0)
      case Got(count, h) =>
        var r := SettingsLoop(s[h..], past, Pairs(count), handler, none);
        (r.0, r.1, h + r.2)
  }

  // ----- The reference: pairs in map order

  /** The supported values. */
  function Supported(i: Item): Option<Setting>
  {
    match i
    case Text(w, d) => if w != Eight then Some(TextSetting(d)) else None
    case UInt(_, n) => if n < HALF64 then Some(IntSetting(n)) else None
    case NInt(_, n) => if n < HALF64 then Some(IntSetting(-1 - n)) else None
    case Simple(w, n) =>
      if w == Direct && (n == 20 || n == 21) then Some(BoolSetting(n == 21))
      else if Size(w) >= 2 then Some(FloatSetting(Size(w), n))
      else None
    case _ => None
  }

  /** What should come of one pair: the callback for a supported value, an error for another. */
  function OnePair(out: Outcome, p: Pair, handler: Handler): Outcome
    requires p.key.Text?
  {
    match Supported(p.value)
    case Some(value) => Apply(out, Update(KeyFor(p.key.data), value), handler)
    case None => Reject(out, KeyFor(p.key.data))
  }

  ghost predicate Settable(pairs: seq<Pair>)
  {
    forall p :: p in pairs ==> p.key.Text? && SoundPair(p)
  }

  function InOrder(pairs: seq<Pair>, handler: Handler): Outcome
    requires forall p :: p in pairs ==> p.key.Text?
  {
    if pairs == [] then Outcome([], [])
    else OnePair(InOrder(pairs[..|pairs| - 1], handler), pairs[|pairs| - 1], handler)
  }

  /** The callbacks that pairs call for, whatever they return. */
  function UpdatesOf(pairs: seq<Pair>): seq<Update>
    requires forall p :: p in pairs ==> p.key.Text?
  {
    if pairs == [] then []
    else
      var p := pairs[|pairs| - 1];
      UpdatesOf(pairs[..|pairs| - 1]) +
      match Supported(p.value) case None => [] case Some(value) => [Update(KeyFor(p.key.data), value)]
  }

  /** The error of pair `p`, if any: an unsupported value, or the status the callback gave it. */
  function ErrorOf(pairs: seq<Pair>, p: nat, handler: Handler): Option<Rejection>
    requires p < |pairs| && forall q :: q in pairs ==> q.key.Text?
  {
    var key := KeyFor(pairs[p].key.data);
    if Supported(pairs[p].value).None? then Some(Rejection(key, 3))
    else
      var status := handler(UpdatesOf(pairs[..p + 1]));
      if status != 0 then Some(Rejection(key, status)) else None
  }

  /** The errors of the first `n` pairs, in order. */
  function ErrorsOf(pairs: seq<Pair>, n: nat, handler: Handler): seq<Rejection>
    requires n <= |pairs| && forall q :: q in pairs ==> q.key.Text?
  {
    if n == 0 then []
    else ErrorsOf(pairs, n - 1, handler) + match ErrorOf(pairs, n - 1, handler) case None => [] case Some(e) => [e]
  }

  /** The callbacks are those of the supported pairs in map order; the errors are those of the other and the rejected
      pairs in map order, one each. */
  lemma {:induction false} InOrderMeans(pairs: seq<Pair>, n: nat, handler: Handler)
    requires n <= |pairs| && forall p :: p in pairs ==> p.key.Text?
    ensures InOrder(pairs[..n], handler) == Outcome(UpdatesOf(pairs[..n]), ErrorsOf(pairs, n, handler))
  {
    if n > 0 {
      InOrderMeans(pairs, n - 1, handler);
      assert pairs[..n][..n - 1] == pairs[..n - 1];
    }
  }

  // ----- The loop against the reference

  lemma SettingRead(i: Item, rest: seq<byte>)
    requires Sound(i, true)
    ensures ReadSetting(Encode(i) + rest) ==
      match Supported(i) case None => Failed case Some(value) => Got(value, |Encode(i)|)
  {
    hide Encode, Sound, ReadText, ReadInt64, ReadSimple;
    FirstByte(i, rest);
    TextRead(i, rest);
    IntRead(i, rest);
    if i.Simple? {
      SimpleRead(i, rest);
    } else if !i.Text? && !i.UInt? && !i.NInt? {
      NotSimple(Encode(i) + rest);
    }
  }

  lemma NotSimple(s: seq<byte>)
    requires s != [] && Major(s[0]) != 7
    ensures ReadSimple(s) == Failed
  {
  }

  lemma SimpleRead(i: Item, rest: seq<byte>)
    requires Sound(i, true) && i.Simple?
    ensures ReadSimple(Encode(i) + rest) ==
      match Supported(i) case None => Failed case Some(value) => Got(value, |Encode(i)|)
  {
    hide ReadHead, Head;
    HeadRead(7, i.width, i.value, rest, 8);
  }

  /** SettingsLoop by cases, for use where its parts are not looked into. */
  lemma SettingsCases(s: seq<byte>, past: byte, left: Option<nat>, handler: Handler, out: Outcome)
    ensures var r := SettingsLoop(s, past, left, handler, out);
      if AtMapEnd(s, past, left) then
        r == if left.None? && s == [] then (-EBADMSG, out, 0) else (0, out, if left.None? then 1 else 0)
      else if ReadText(s).Failed? then r == (-EBADMSG, out, 0)
      else
        var k := ReadText(s).length;
        var key := KeyFor(ReadText(s).value);
        var v := ReadSetting(s[k..]);
        if v.Got? then
          r == Further(k + v.length, SettingsLoop(s[k + v.length..], past, OneLess(left), handler,
                                                  Apply(out, Update(key, v.value), handler)))
        else if SkipItem(s[k..], true).None? then r == (-EBADMSG, Reject(out, key), 0)
        else
          var n := SkipItem(s[k..], true).value;
          r == Further(k + n, SettingsLoop(s[k + n..], past, OneLess(left), handler, Reject(out, key)))
  {
    hide ReadText, ReadSetting, SkipItem, KeyFor, Apply, Reject, AtMapEnd, Further;
  }

  lemma {:induction false} LoopInOrder(s: seq<byte>, past: byte, left: Option<nat>, handler: Handler, pairs: seq<Pair>, p: nat,
                                       tail: seq<byte>)
    requires Settable(pairs) && AtPair(s, pairs, p, left, tail)
    ensures SettingsLoop(s, past, left, handler, InOrder(pairs[..p], handler)) ==
      (0, InOrder(pairs, handler), |s| - |tail| + if left.None? then 1 else 0)
    decreases |pairs| - p
  {
    hide Encode, Sound, ReadText, ReadSetting, SkipItem, SettingsLoop, EncodePairs, AtPair, KeyFor, Supported, Apply, Reject;
    AtPairShape(s, pairs, p, left, tail);
    var out := InOrder(pairs[..p], handler);
    SettingsCases(s, past, left, handler, out);
    if p == |pairs| {
      LastPair(s, pairs, left, tail);
      assert pairs[..p] == pairs;
    } else {
      var q := pairs[p];
      assert q in pairs && SoundPair(q);
      NextPair(s, pairs, p, left, tail);
      var k, n := |Encode(q.key)|, |Encode(q.value)|;
      TextRead(q.key, s[k..]);
      SettingRead(q.value, s[k + n..]);
      SkipEncode(q.value, s[k + n..]);
      assert pairs[..p + 1][..p] == pairs[..p];
      assert InOrder(pairs[..p + 1], handler) == OnePair(out, q, handler);
      LoopInOrder(s[k + n..], past, OneLess(left), handler, pairs, p + 1, tail);
    }
  }

  lemma AtPairShape(s: seq<byte>, pairs: seq<Pair>, p: nat, left: Option<nat>, tail: seq<byte>)
    requires AtPair(s, pairs, p, left, tail)
    ensures p <= |pairs| && |tail| <= |s|
    ensures p == |pairs| ==> s == tail && (left.None? ==> s != [])
  {
  }

  /** For any well-formed settings map with text keys, in any order and with any values: every supported pair goes to the
      user's callback once, in map order; the errors are exactly the pairs unsupported or rejected, in map
      order; and exactly the map is consumed. */
  lemma SettingsConserved(pairs: seq<Pair>, w: Option<Width>, rest: seq<byte>, past: byte, handler: Handler)
    requires Settable(pairs) && Sound(MapItem(pairs, w), true) && w != Some(Eight)
    ensures DecodeAll(Encode(MapItem(pairs, w)) + rest, past, handler) ==
      (0, Outcome(UpdatesOf(pairs), ErrorsOf(pairs, |pairs|, handler)), |Encode(MapItem(pairs, w))|)
  {
    hide Encode, Sound, SettingsLoop, ReadStart, ReadHead, EncodePairs;
    InOrderMeans(pairs, |pairs|, handler);
    assert pairs[..|pairs|] == pairs;
    assert pairs[..0] == [] && pairs[0..] == pairs;
    var s := Encode(MapItem(pairs, w)) + rest;
    FirstByte(MapItem(pairs, w), rest);
    NilIsNoMap(s);
    var tail := MapStart(pairs, w, rest);
    var h := ReadStart(s, 5).length;
    LoopInOrder(s[h..], past, Pairs(ReadStart(s, 5).value), handler, pairs, 0, tail);
  }

  lemma NilIsNoMap(s: seq<byte>)
    requires s != [] && Major(s[0]) == 5
    ensures s[0] != NIL
  {
  }

  /** The start of an encoded map, and the pairs after it. */
  lemma MapStart(pairs: seq<Pair>, w: Option<Width>, rest: seq<byte>) returns (tail: seq<byte>)
    requires Settable(pairs) && Sound(MapItem(pairs, w), true) && w != Some(Eight)
    ensures var s := Encode(MapItem(pairs, w)) + rest;
      && ReadStart(s, 5).Got?
      && var h := ReadStart(s, 5).length;
         && AtPair(s[h..], pairs, 0, Pairs(ReadStart(s, 5).value), tail)
         && h + |s[h..]| - |tail| + (if w.None? then 1 else 0) == |Encode(MapItem(pairs, w))|
         && (Pairs(ReadStart(s, 5).value).None? <==> w.None?)
  {
    hide Head, SkipItem, EncodePairs, ReadHead;
    FlattenEncodes(pairs);
    assert pairs[0..] == pairs;
    if w.Some? {
      HeadOf(5, w.value, |pairs|, EncodePairs(pairs), rest, 4);
      tail := rest;
    } else {
      tail := [BREAK] + rest;
      assert (Encode(MapItem(pairs, w)) + rest)[1..] == EncodePairs(pairs) + tail;
    }
  }

  // ----- Names that are handed on whole

  /** A label that is a C string of at most 63 bytes. */
  predicate PlainName(name: seq<byte>)
  {
    |name| <= 63 && 0 !in name
  }

  /** Those labels, and no others, are handed on as they are. */
  lemma PlainNamesKept(name: seq<byte>)
    ensures KeyFor(name) == name <==> PlainName(name)
  {
    var key := KeyFor(name);
    assert key <= name;
    assert |key| < |name| ==> name[|key|] in name;
  }

  /** The callbacks that pairs call for, each with its pair's own label. */
  function OwnUpdates(pairs: seq<Pair>): seq<Update>
    requires forall p :: p in pairs ==> p.key.Text?
  {
    if pairs == [] then []
    else
      var p := pairs[|pairs| - 1];
      OwnUpdates(pairs[..|pairs| - 1]) +
      match Supported(p.value) case None => [] case Some(value) => [Update(p.key.data, value)]
  }

  /** The errors of the first `n` pairs in order, each with its pair's own label: 3 for a value that is not supported, otherwise
      what the callback returned unless that is 0. */
  function OwnErrors(pairs: seq<Pair>, n: nat, handler: Handler): seq<Rejection>
    requires n <= |pairs| && forall q :: q in pairs ==> q.key.Text?
  {
    if n == 0 then []
    else
      var p := pairs[n - 1];
      var code := if Supported(p.value).None? then 3 else handler(OwnUpdates(pairs[..n]));
      OwnErrors(pairs, n - 1, handler) + if code != 0 then [Rejection(p.key.data, code)] else []
  }

  lemma {:induction false} OwnUpdatesAre(pairs: seq<Pair>)
    requires forall p :: p in pairs ==> p.key.Text? && PlainName(p.key.data)
    ensures UpdatesOf(pairs) == OwnUpdates(pairs)
  {
    hide KeyFor, Supported;
    if pairs != [] {
      OwnUpdatesAre(pairs[..|pairs| - 1]);
      PlainNamesKept(pairs[|pairs| - 1].key.data);
    }
  }

  lemma {:induction false} OwnErrorsAre(pairs: seq<Pair>, n: nat, handler: Handler)
    requires n <= |pairs| && forall p :: p in pairs ==> p.key.Text? && PlainName(p.key.data)
    ensures ErrorsOf(pairs, n, handler) == OwnErrors(pairs, n, handler)
  {
    hide KeyFor, Supported, UpdatesOf, OwnUpdates, PlainName;
    if n > 0 {
      OwnErrorsAre(pairs, n - 1, handler);
      OwnUpdatesAre(pairs[..n]);
      PlainNamesKept(pairs[n - 1].key.data);
    }
  }

  /** SettingsConserved for labels that are C strings of at most 63 bytes: every callback and every error has the label itself. */
  lemma SettingsUnderTheirNames(pairs: seq<Pair>, w: Option<Width>, rest: seq<byte>, past: byte, handler: Handler)
    requires Settable(pairs) && Sound(MapItem(pairs, w), true) && w != Some(Eight)
    requires forall p :: p in pairs ==> PlainName(p.key.data)
    ensures DecodeAll(Encode(MapItem(pairs, w)) + rest, past, handler) ==
      (0, Outcome(OwnUpdates(pairs), OwnErrors(pairs, |pairs|, handler)), |Encode(MapItem(pairs, w))|)
  {
    hide DecodeAll, Encode, Sound, SoundPair, PlainName;
    SettingsConserved(pairs, w, rest, past, handler);
    OwnUpdatesAre(pairs);
    OwnErrorsAre(pairs, |pairs|, handler);
  }

  /** One value of each supported type, byte for byte, and one of a type that is not supported. */
  lemma SettingExamples()
    ensures ReadSetting([0x61, 65]) == Got(TextSetting([65]), 2)
    ensures ReadSetting([0x18, 200]) == Got(IntSetting(200), 2) && ReadSetting([0x38, 99]) == Got(IntSetting(-100), 2)
    ensures ReadSetting([0xF5]) == Got(BoolSetting(true), 1) && ReadSetting([0xF4]) == Got(BoolSetting(false), 1)
    ensures ReadSetting([0xF9, 0x3C, 0x01]) == Got(FloatSetting(2, 0x3C01), 3)
    ensures ReadSetting([0x41, 65]) == Failed && ReadSetting([0xF6]) == Failed
  {
    OneByte(200);
    OneByte(99);
    OneByte(0x3C);
    assert [0x3C, 0x01][..1] == [0x3C] && [0xF9, 0x3C, 0x01][1..3] == [0x3C, 0x01];
    assert FromBigEndian([0x3C, 0x01]) == 0x3C01;
    assert [0x61, 65][1..2] == [65];
  }

  lemma OneByte(b: byte)
    ensures FromBigEndian([b]) == b && [0x18, b][1..2] == [b] && [0x38, b][1..2] == [b]
  {
    assert [b][..0] == [];
  }

  /** A null in place of the map is no settings, and not an error in them. */
  lemma NullIsNoSettings(rest: seq<byte>, past: byte, handler: Handler)
    ensures DecodeAll([0xF6] + rest, past, handler) == (-2, Outcome([], []), 1)
  {
  }
}
