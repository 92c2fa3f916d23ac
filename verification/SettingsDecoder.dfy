/** `settings_decode` and the response of net/golioth/settings.c as they run: a cursor moved through the map, errors encoded into
    a buffer as they come up. */
module SettingsDecoder {
  import opened Common
  import opened Cbor
  import opened CborSkip
  import opened CborWrite
  import opened ZcborState
  import opened MapTable
  import opened MapLookup
  import opened MapDecoder
  import opened Settings

  // "errors", "setting_key", "error_code" and "version" in ASCII.
  const ERRORS: seq<byte> := [101, 114, 114, 111, 114, 115]
  const SETTING_KEY: seq<byte> := [115, 101, 116, 116, 105, 110, 103, 95, 107, 101, 121]
  const ERROR_CODE: seq<byte> := [101, 114, 114, 111, 114, 95, 99, 111, 100, 101]
  const VERSION: seq<byte> := [118, 101, 114, 115, 105, 111, 110]

  function ErrorItem(e: Rejection): Item
  {
    OpenMap([TextItem(SETTING_KEY), TextItem(e.key), TextItem(ERROR_CODE), IntItem(e.code)])
  }

  function ErrorItems(errors: seq<Rejection>): (items: seq<Item>)
    ensures |items| == |errors|
  {
    if errors == [] then [] else ErrorItems(errors[..|errors| - 1]) + [ErrorItem(errors[|errors| - 1])]
  }

  /** The response: the errors, when there are any, and the version. */
  function ResponseItem(errors: seq<Rejection>, version: int): Item
  {
    OpenMap((if errors == [] then [] else [TextItem(ERRORS), OpenList(ErrorItems(errors))])
            + [TextItem(VERSION), IntItem(version)])
  }

  /** Keys are short, so headers of theirs are. */
  predicate SmallError(e: Rejection)
  {
    |e.key| <= MAX_NAME_LEN
  }

  lemma ErrorSound(e: Rejection)
    requires SmallError(e)
    ensures Sound(ErrorItem(e), true)
  {
    hide Fits, Encodable;
    TextSound(SETTING_KEY);
    TextSound(e.key);
    TextSound(ERROR_CODE);
    IntSound(e.code);
  }

  lemma {:induction false} ErrorsSound(errors: seq<Rejection>)
    requires forall e :: e in errors ==> SmallError(e)
    ensures forall x :: x in ErrorItems(errors) ==> Sound(x, true)
  {
    hide SmallError, ErrorItem, Sound;
    if errors != [] {
      ErrorsSound(errors[..|errors| - 1]);
      ErrorSound(errors[|errors| - 1]);
    }
  }

  lemma ResponseSound(errors: seq<Rejection>, version: int)
    requires (forall e :: e in errors ==> SmallError(e)) && Encodable(version)
    ensures Sound(ResponseItem(errors, version), true)
  {
    hide Fits, Encodable, SmallError, ErrorItems;
    ErrorsSound(errors);
    TextSound(ERRORS);
    TextSound(VERSION);
    IntSound(version);
  }

  // ----- The bytes written so far

  function ErrorBytes(e: Rejection): seq<byte>
    requires SmallError(e)
  {
    TextSound(SETTING_KEY);
    TextSound(e.key);
    TextSound(ERROR_CODE);
    IntSound(e.code);
    [0xBF] + Encode(TextItem(SETTING_KEY)) + Encode(TextItem(e.key)) + Encode(TextItem(ERROR_CODE)) + Encode(IntItem(e.code))
    + [BREAK]
  }

  function AllErrorBytes(errors: seq<Rejection>): seq<byte>
    requires forall e :: e in errors ==> SmallError(e)
  {
    if errors == [] then []
    else AllErrorBytes(errors[..|errors| - 1]) + ErrorBytes(errors[|errors| - 1])
  }

  /** The response while it is built: the root map open, and once there is an error the list of errors too. */
  function OpenBytes(errors: seq<Rejection>): seq<byte>
    requires forall e :: e in errors ==> SmallError(e)
  {
    TextSound(ERRORS);
    [0xBF] + (if errors == [] then [] else Encode(TextItem(ERRORS)) + [0x9F] + AllErrorBytes(errors))
  }

  function ClosedBytes(errors: seq<Rejection>, version: int): seq<byte>
    requires (forall e :: e in errors ==> SmallError(e)) && Encodable(version)
  {
    TextSound(VERSION);
    IntSound(version);
    OpenBytes(errors) + (if errors == [] then [] else [BREAK]) + Encode(TextItem(VERSION)) + Encode(IntItem(version)) + [BREAK]
  }

  lemma ErrorEncodes(e: Rejection)
    requires SmallError(e)
    ensures Sound(ErrorItem(e), true) && Encode(ErrorItem(e)) == ErrorBytes(e)
  {
    hide Sound, Head, TextItem, IntItem, Encode, Encodable;
    TextSound(SETTING_KEY);
    TextSound(e.key);
    TextSound(ERROR_CODE);
    IntSound(e.code);
    var a, b, c, d := TextItem(SETTING_KEY), TextItem(e.key), TextItem(ERROR_CODE), IntItem(e.code);
    FourEncode(a, b, c, d);
  }

  lemma FourEncode(a: Item, b: Item, c: Item, d: Item)
    requires Sound(a, true) && Sound(b, true) && Sound(c, true) && Sound(d, true)
    ensures Sound(OpenMap([a, b, c, d]), true)
    ensures Encode(OpenMap([a, b, c, d])) == [0xBF] + Encode(a) + Encode(b) + Encode(c) + Encode(d) + [BREAK]
  {
    hide Encode, Sound;
    TwoTogether(c, d);
    EncodeCons(b, [c, d]);
    EncodeCons(a, [b, c, d]);
    assert [b] + [c, d] == [b, c, d] && [a] + [b, c, d] == [a, b, c, d];
    MapEncodes([a, b, c, d]);
  }

  lemma TwoTogether(a: Item, b: Item)
    requires Sound(a, true) && Sound(b, true)
    ensures EncodeAll([a, b]) == Encode(a) + Encode(b)
  {
    hide Encode, Sound;
    NoneSkipped([]);
    EncodeCons(b, []);
    EncodeCons(a, [b]);
    assert [b] + [] == [b] && [a] + [b] == [a, b];
  }

  lemma MapEncodes(items: seq<Item>)
    requires forall x :: x in items ==> Sound(x, true)
    requires |items| % 2 == 0
    ensures Sound(OpenMap(items), true) && Encode(OpenMap(items)) == [0xBF] + EncodeAll(items) + [BREAK]
  {
  }

  lemma {:induction false} EncodeAppend(items: seq<Item>, last: Item)
    requires Sound(last, true) && forall x :: x in items ==> Sound(x, true)
    ensures EncodeAll(items + [last]) == EncodeAll(items) + Encode(last)
  {
    hide Encode, Sound;
    if items == [] {
      assert [] + [last] == [last] + [];
      EncodeCons(last, []);
      NoneSkipped([]);
    } else {
      EncodeAppend(items[1..], last);
      EncodeCons(items[0], items[1..]);
      EncodeCons(items[0], items[1..] + [last]);
      assert items == [items[0]] + items[1..];
      assert items + [last] == [items[0]] + (items[1..] + [last]);
    }
  }

  lemma {:induction false} ErrorsEncode(errors: seq<Rejection>)
    requires (forall e :: e in errors ==> SmallError(e)) && forall x :: x in ErrorItems(errors) ==> Sound(x, true)
    ensures EncodeAll(ErrorItems(errors)) == AllErrorBytes(errors)
  {
    hide Encode, EncodeAll, Sound, SmallError, ErrorBytes, ErrorItem;
    if errors == [] {
      NoneSkipped([]);
    } else {
      var init, last := errors[..|errors| - 1], errors[|errors| - 1];
      ErrorsSound(init);
      ErrorSound(last);
      ErrorsEncode(init);
      ErrorEncodes(last);
      EncodeAppend(ErrorItems(init), ErrorItem(last));
    }
  }

  /** The finished buffer is the encoding of the response with these errors, in this order. */
  lemma ResponseEncodes(errors: seq<Rejection>, version: int)
    requires (forall e :: e in errors ==> SmallError(e)) && Encodable(version)
    ensures Sound(ResponseItem(errors, version), true)
    ensures Encode(ResponseItem(errors, version)) == ClosedBytes(errors, version)
  {
    hide Encode, EncodeAll, Sound, SmallError, AllErrorBytes, TextItem, IntItem, ErrorItems;
    ResponseSound(errors, version);
    TextSound(VERSION);
    IntSound(version);
    TextSound(ERRORS);
    if errors == [] {
      TwoEncode(TextItem(VERSION), IntItem(version));
      assert [] + [TextItem(VERSION), IntItem(version)] == [TextItem(VERSION), IntItem(version)];
    } else {
      ErrorsSound(errors);
      ErrorsEncode(errors);
      ListEncodes(ErrorItems(errors));
      FourEncode(TextItem(ERRORS), OpenList(ErrorItems(errors)), TextItem(VERSION), IntItem(version));
      assert [TextItem(ERRORS), OpenList(ErrorItems(errors))] + [TextItem(VERSION), IntItem(version)]
          == [TextItem(ERRORS), OpenList(ErrorItems(errors)), TextItem(VERSION), IntItem(version)];
    }
  }

  // ----- What a receiver finds in the response

  lemma ResponseNames()
    ensures ERRORS == Ascii("errors") && VERSION == Ascii("version")
    ensures SETTING_KEY == Ascii("setting_key") && ERROR_CODE == Ascii("error_code")
  {
  }

  /** The map decoder finds this value at this key. */
  ghost predicate Finds(s: seq<byte>, pos: nat, past: byte, key: string, d: Decoder, value: Value)
  {
    DecodeMap(s, pos, past, [Entry(TstrKey(Ascii(key)), d)], NoOutputs(1)) == (0, [Some(value)])
  }

  function TextPair(key: seq<byte>, value: Item): Pair
  {
    Pair(TextItem(key), value)
  }

  /** Pairs with text keys, all different. */
  lemma LabelledGood(pairs: seq<Pair>)
    requires forall p :: p in pairs ==> p.key.Text? && |p.key.data| < 24 && p.key == TextItem(p.key.data) && Sound(p.value, true)
    requires forall i, j :: 0 <= i < j < |pairs| ==> pairs[i].key.data != pairs[j].key.data
    ensures GoodPairs(pairs)
  {
    forall p | p in pairs
      ensures SoundPair(p) && KeyOf(p.key) == Some(TstrKey(p.key.data))
    {
      TextSound(p.key.data);
    }
    forall i, j | 0 <= i < j < |pairs|
      ensures KeyOf(pairs[i].key) != KeyOf(pairs[j].key)
    {
      assert pairs[i] in pairs && pairs[j] in pairs;
    }
  }

  lemma LabelFound(pairs: seq<Pair>, n: nat, d: Decoder, rest: seq<byte>, pos: nat, past: byte)
    requires GoodPairs(pairs) && (forall p :: p in pairs ==> p.key.Text?) && Sound(MapItem(pairs, None), true)
    requires n < |pairs| && Takes(d, pairs[n].value)
    ensures KeyOf(pairs[n].key) == Some(TstrKey(pairs[n].key.data))
    ensures DecodeMap(Encode(MapItem(pairs, None)) + rest, pos, past, [Entry(TstrKey(pairs[n].key.data), d)], NoOutputs(1))
      == (0, [Some(Meaning(d, pairs[n].value, Places(pairs, pos + 1)[n]))])
  {
    hide Encode, Sound, DecodeMap, Places, MapItem, Takes, Meaning, NoOutputs;
    assert pairs[n] in pairs && SoundPair(pairs[n]);
    OneLookedUp(pairs, None, n, d, rest, pos, past);
  }

  /** Each error is a map with the setting's key and the code. */
  lemma ErrorDecodes(e: Rejection, rest: seq<byte>, pos: nat, past: byte)
    requires SmallError(e)
    ensures Finds(ErrorBytes(e) + rest, pos, past, "setting_key", Tstr, String(e.key))
    ensures Finds(ErrorBytes(e) + rest, pos, past, "error_code", Int64, Number(e.code))
  {
    hide Encode, Sound, DecodeMap, Places, ErrorBytes, NoOutputs;
    ErrorEncodes(e);
    ResponseNames();
    TextSound(e.key);
    IntSound(e.code);
    var pairs := [TextPair(SETTING_KEY, TextItem(e.key)), TextPair(ERROR_CODE, IntItem(e.code))];
    LabelledGood(pairs);
    FlattenTwo(pairs);
    LabelFound(pairs, 0, Tstr, rest, pos, past);
    LabelFound(pairs, 1, Int64, rest, pos, past);
  }

  lemma FlattenTwo(pairs: seq<Pair>)
    requires |pairs| == 2
    ensures Flatten(pairs) == [pairs[0].key, pairs[0].value, pairs[1].key, pairs[1].value]
  {
    assert Flatten(pairs[1..][1..]) == [];
  }

  /** The response has the version at its key, and the errors, unless there are none, as a list at theirs. */
  lemma ResponseDecodes(errors: seq<Rejection>, version: int, rest: seq<byte>, pos: nat, past: byte)
    requires (forall e :: e in errors ==> SmallError(e)) && Encodable(version)
    ensures var s := ClosedBytes(errors, version) + rest;
      && Finds(s, pos, past, "version", Int64, Number(version))
      && (errors != [] ==>
            && Finds(s, pos, past, "errors", Params, ListAt(pos + 9, None))
            && |s| >= 9 && AllErrorBytes(errors) + [BREAK] <= s[9..])
  {
    hide Encode, Sound, DecodeMap, ClosedBytes, AllErrorBytes, ErrorItems, NoOutputs, Encodable, SmallError;
    ResponseEncodes(errors, version);
    ResponseNames();
    IntSound(version);
    IntTaken(version);
    var last := TextPair(VERSION, IntItem(version));
    if errors == [] {
      LabelledGood([last]);
      assert Flatten([last][1..]) == [];
      assert Flatten([last]) == [] + [TextItem(VERSION), IntItem(version)];
      assert MapItem([last], None) == ResponseItem(errors, version);
      LabelFound([last], 0, Int64, rest, pos, past);
    } else {
      ErrorsSound(errors);
      ListSound(ErrorItems(errors));
      var pairs := [TextPair(ERRORS, OpenList(ErrorItems(errors))), last];
      LabelledGood(pairs);
      FlattenTwo(pairs);
      assert Flatten(pairs) == [TextItem(ERRORS), OpenList(ErrorItems(errors))] + [TextItem(VERSION), IntItem(version)];
      assert MapItem(pairs, None) == ResponseItem(errors, version);
      LabelFound(pairs, 1, Int64, rest, pos, past);
      LabelFound(pairs, 0, Params, rest, pos, past);
      FirstPlace(pairs, pos);
      ErrorsAt(errors, version, rest);
    }
  }

  lemma IntTaken(n: int)
    requires Encodable(n)
    ensures Takes(Int64, IntItem(n)) && forall at: nat :: Meaning(Int64, IntItem(n), at) == Number(n)
  {
  }

  lemma ListSound(items: seq<Item>)
    requires forall x :: x in items ==> Sound(x, true)
    ensures Sound(OpenList(items), true)
  {
  }

  lemma FirstPlace(pairs: seq<Pair>, pos: nat)
    requires (forall p :: p in pairs ==> SoundPair(p)) && pairs != [] && pairs[0].key == TextItem(ERRORS)
    ensures Places(pairs, pos + 1)[0] == pos + 8
  {
    TextSound(ERRORS);
    assert |Encode(TextItem(ERRORS))| == 7;
  }

  lemma ErrorsAt(errors: seq<Rejection>, version: int, rest: seq<byte>)
    requires (forall e :: e in errors ==> SmallError(e)) && Encodable(version) && errors != []
    ensures var s := ClosedBytes(errors, version) + rest; |s| >= 9 && AllErrorBytes(errors) + [BREAK] <= s[9..]
  {
    hide AllErrorBytes, Encode, TextItem, IntItem, Sound, Encodable, SmallError;
    TextSound(ERRORS);
    TextSound(VERSION);
    IntSound(version);
    KeyLength();
    Regrouped([0xBF], Encode(TextItem(ERRORS)), [0x9F], AllErrorBytes(errors), [BREAK],
              Encode(TextItem(VERSION)), Encode(IntItem(version)), rest);
  }

  lemma KeyLength()
    ensures Sound(TextItem(ERRORS), true) && |Encode(TextItem(ERRORS))| == 7
  {
    TextSound(ERRORS);
  }

  lemma Regrouped(a: seq<byte>, b: seq<byte>, c: seq<byte>, d: seq<byte>, e: seq<byte>, f: seq<byte>, g: seq<byte>, h: seq<byte>)
    requires |a| + |b| + |c| == 9
    ensures var s := a + (b + c + d) + e + f + g + e + h; |s| >= 9 && d + e <= s[9..]
  {
    assert a + (b + c + d) + e + f + g + e + h == (a + b + c) + ((d + e) + (f + g + e + h));
  }

  lemma TwoEncode(a: Item, b: Item)
    requires Sound(a, true) && Sound(b, true)
    ensures Sound(OpenMap([a, b]), true)
    ensures Encode(OpenMap([a, b])) == [0xBF] + Encode(a) + Encode(b) + [BREAK]
  {
    hide Encode, Sound;
    TwoTogether(a, b);
    MapEncodes([a, b]);
  }

  lemma ListEncodes(items: seq<Item>)
    requires forall x :: x in items ==> Sound(x, true)
    ensures Sound(OpenList(items), true) && Encode(OpenList(items)) == [0x9F] + EncodeAll(items) + [BREAK]
  {
  }

  // ----- The response buffer

  /** The buffer after these puts, in turn, each of which writes all its bytes or none. */
  ghost function PutEach(capacity: nat, buf: seq<byte>, puts: seq<seq<byte>>): seq<byte>
    decreases |puts|
  {
    if puts == [] then buf
    else PutEach(capacity, if |buf| + |puts[0]| <= capacity then buf + puts[0] else buf, puts[1..])
  }

  lemma NoPuts(capacity: nat, buf: seq<byte>)
    ensures PutEach(capacity, buf, []) == buf
  {
  }

  lemma {:induction false} PutLast(capacity: nat, buf: seq<byte>, puts: seq<seq<byte>>, last: seq<byte>)
    ensures var b := PutEach(capacity, buf, puts);
      PutEach(capacity, buf, puts + [last]) == if |b| + |last| <= capacity then b + last else b
    decreases |puts|
  {
    if puts == [] {
      NoPuts(capacity, buf);
      NoPuts(capacity, buf + last);
      assert ([] + [last])[1..] == [];
    } else {
      assert (puts + [last])[1..] == puts[1..] + [last];
      PutLast(capacity, if |buf| + |puts[0]| <= capacity then buf + puts[0] else buf, puts[1..], last);
    }
  }

  /** The puts that open the list of errors. */
  ghost function ListPuts(): seq<seq<byte>>
  {
    TextSound(ERRORS);
    [Encode(TextItem(ERRORS)), [0x9F]]
  }

  /** The puts of one error. */
  ghost function ErrorPuts(e: Rejection): (puts: seq<seq<byte>>)
    requires SmallError(e)
    ensures |puts| == 6
  {
    TextSound(SETTING_KEY);
    TextSound(e.key);
    TextSound(ERROR_CODE);
    CodeEncodable(e.code);
    IntSound(e.code);
    [[0xBF], Encode(TextItem(SETTING_KEY)), Encode(TextItem(e.key)), Encode(TextItem(ERROR_CODE)), Encode(IntItem(e.code)), [BREAK]]
  }

  /** `struct settings_response`. */
  class Response {
    const capacity: nat
    var buf: seq<byte>          // what zcbor has written so far
    var numErrors: nat
    ghost var errors: seq<Rejection>

    /** The buffer is the open response, as long as that fits. */
    ghost predicate Valid()
      reads this
    {
      && (forall e :: e in errors ==> SmallError(e)) && numErrors == |errors|
      && (|OpenBytes(errors)| <= capacity ==> buf == OpenBytes(errors))
    }

    /** A zcbor put: writes all of `bytes` or nothing. */
    method Put(bytes: seq<byte>) returns (ok: bool)
      modifies this`buf
      ensures ok <==> |old(buf)| + |bytes| <= capacity
      ensures buf == if ok then old(buf) + bytes else old(buf)
    {
      ok := |buf| + |bytes| <= capacity;
      if ok {
        buf := buf + bytes;
      }
    }

    /** `response_init`. */
    constructor (capacity: nat)
      ensures Valid() && errors == [] && this.capacity == capacity
    {
      this.capacity := capacity;
      buf, numErrors, errors := [], 0, [];
      new;
      var _ := Put([0xBF]);
    }

    /** A put whose outcome is not looked at: one more after `done`, whose bytes are `bytesDone`. */
    method PutNext(bytes: seq<byte>, ghost before: seq<byte>, ghost done: seq<seq<byte>>, ghost bytesDone: seq<byte>)
      requires buf == PutEach(capacity, before, done)
      modifies this`buf
      ensures buf == PutEach(capacity, before, done + [bytes])
      ensures |before| + |bytesDone + bytes| <= capacity && old(buf) == before + bytesDone ==>
        buf == before + (bytesDone + bytes)
    {
      PutLast(capacity, before, done, bytes);
      var _ := Put(bytes);
      assert before + bytesDone + bytes == before + (bytesDone + bytes);
    }

    /** `add_error_to_response`. It does not look whether its writes fit, and goes on after one that does not. */
    method AddError(key: seq<byte>, code: Status)
      requires Valid() && |key| <= MAX_NAME_LEN
      modifies this
      ensures Valid() && errors == old(errors) + [Rejection(key, code)]
      ensures var start := if old(errors) == [] then PutEach(capacity, old(buf), ListPuts()) else old(buf);
        buf == PutEach(capacity, start, ErrorPuts(Rejection(key, code)))
    {
      hide Encode, Sound, TextItem, IntItem, AllErrorBytes, Encodable, ErrorBytes, PutEach, ListPuts, ErrorPuts;
      ghost var e := Rejection(key, code);
      ErrorMore(errors, e);
      if numErrors == 0 {
        StartErrors();
      }
      PutErrorMap(key, code);
      numErrors := numErrors + 1;
      errors := errors + [e];
    }

    /** The start of the list of errors. */
    method StartErrors()
      modifies this`buf
      ensures Sound(TextItem(ERRORS), true)
      ensures buf == PutEach(capacity, old(buf), ListPuts())
      ensures var start := Encode(TextItem(ERRORS)) + [0x9F];
        |old(buf)| + |start| <= capacity ==> buf == old(buf) + start
    {
      hide Encode, Sound, TextItem;
      TextSound(ERRORS);
      ghost var b, text := buf, Encode(TextItem(ERRORS));
      assert b == b + [];
      PutNext(Encode(TextItem(ERRORS)), b, [], []);
      assert [] + text == text && [] + [text] == [text];
      PutNext([0x9F], b, [text], text);
    }

    /** The map of one error. */
    method PutErrorMap(key: seq<byte>, code: Status)
      requires |key| <= MAX_NAME_LEN
      modifies this`buf
      ensures buf == PutEach(capacity, old(buf), ErrorPuts(Rejection(key, code)))
      ensures var bytes := ErrorBytes(Rejection(key, code));
        |old(buf)| + |bytes| <= capacity ==> buf == old(buf) + bytes
    {
      hide Encode, Sound, TextItem, IntItem, Encodable, PutEach;
      TextSound(SETTING_KEY);
      TextSound(key);
      TextSound(ERROR_CODE);
      CodeEncodable(code);
      IntSound(code);
      ghost var puts := ErrorPuts(Rejection(key, code));
      ghost var b := buf;
      ghost var s1 := [0xBF];
      ghost var s2 := s1 + puts[1];
      ghost var s3 := s2 + puts[2];
      ghost var s4 := s3 + puts[3];
      ghost var s5 := s4 + puts[4];
      assert ErrorBytes(Rejection(key, code)) == s5 + [BREAK];
      NoPuts(capacity, b);
      assert b == b + [];
      PutNext([0xBF], b, [], []);
      assert [] + [0xBF] == s1 && [] + [[0xBF]] == puts[..1];
      PutNext(Encode(TextItem(SETTING_KEY)), b, puts[..1], s1);
      assert puts[..1] + [puts[1]] == puts[..2];
      PutNext(Encode(TextItem(key)), b, puts[..2], s2);
      assert puts[..2] + [puts[2]] == puts[..3];
      PutNext(Encode(TextItem(ERROR_CODE)), b, puts[..3], s3);
      assert puts[..3] + [puts[3]] == puts[..4];
      PutNext(Encode(IntItem(code)), b, puts[..4], s4);
      assert puts[..4] + [puts[4]] == puts[..5];
      PutNext([BREAK], b, puts[..5], s5);
      assert puts[..5] + [puts[5]] == puts;
    }

    /** `finalize_and_send_response`, up to sending. */
    method Finalize(version: int) returns (err: int)
      requires Valid() && Encodable(version)
      modifies this`buf
      ensures Sound(ResponseItem(errors, version), true)
      ensures |Encode(ResponseItem(errors, version))| <= capacity ==>
                err == 0 && buf == Encode(ResponseItem(errors, version))
      ensures err == 0 || err == -ENOMEM
    {
      hide Encode, Sound, TextItem, IntItem, OpenBytes, Encodable, ResponseItem, SmallError;
      ResponseEncodes(errors, version);
      TextSound(VERSION);
      IntSound(version);
      ghost var start := OpenBytes(errors) + if errors == [] then [] else [BREAK];
      ghost var labelled := start + Encode(TextItem(VERSION));
      ghost var all := labelled + Encode(IntItem(version)) + [BREAK];
      assert ClosedBytes(errors, version) == all;
      hide ClosedBytes;
      assert errors == [] ==> start == OpenBytes(errors);
      var ok := true;
      if numErrors > 0 {
        ok := Put([BREAK]);
      }
      assert |all| <= capacity ==> ok && buf == start;
      if ok {
        ok := Put(Encode(TextItem(VERSION)));
      }
      assert |all| <= capacity ==> ok && buf == labelled;
      if ok {
        ok := Put(Encode(IntItem(version)));
      }
      if ok {
        ok := Put([BREAK]);
      }
      err := if ok then 0 else -ENOMEM;
    }
  }

  lemma CodeEncodable(code: Status)
    ensures Encodable(code)
  {
  }

  /** The open response with one more error. */
  lemma ErrorMore(errors: seq<Rejection>, e: Rejection)
    requires (forall x :: x in errors ==> SmallError(x)) && SmallError(e)
    ensures OpenBytes(errors + [e]) ==
      (TextSound(ERRORS);
       OpenBytes(errors) + (if errors == [] then Encode(TextItem(ERRORS)) + [0x9F] else []) + ErrorBytes(e))
  {
    hide Encode, Sound, TextItem, ErrorBytes;
    assert (errors + [e])[..|errors|] == errors;
    assert AllErrorBytes(errors + [e]) == AllErrorBytes(errors) + ErrorBytes(e);
  }

  // ----- The decode loop

  /** A float, or else a boolean: `zcbor_float_decode` and `zcbor_bool_decode`. */
  method SimpleDecode(zsd: State) returns (ok: bool, value: Setting)
    requires zsd.Valid() && zsd.elemCount > 0
    modifies zsd`payload, zsd`elemCount
    ensures zsd.Valid()
    ensures ok <==> ReadSimple(old(zsd.Rest())).Got?
    ensures ok ==> value == ReadSimple(old(zsd.Rest())).value && zsd.payload == old(zsd.payload) + ReadSimple(old(zsd.Rest())).length
    ensures zsd.elemCount == old(zsd.elemCount) - if ok then 1 else 0
    ensures !ok ==> zsd.payload == old(zsd.payload)
  {
    hide ReadHead;
    ok, value := false, BoolSetting(false);
    if zsd.payload == |zsd.buf| || Major(zsd.buf[zsd.payload]) != 7 {
      return;
    }
    var additional := zsd.buf[zsd.payload] % 32;
    if 25 <= additional <= 27 {
      var start := zsd.payload;
      var bits;
      ok, bits := zsd.ValueExtract(8);
      if ok {
        value := FloatSetting(zsd.payload - start - 1, bits);
      }
    } else if additional == 20 || additional == 21 {
      zsd.Advance(1);
      ok, value := true, BoolSetting(additional == 21);
    }
  }

  /** The type dispatch on the next byte. */
  method SettingDecode(zsd: State) returns (ok: bool, value: Setting)
    requires zsd.Valid() && zsd.elemCount > 0
    modifies zsd`payload, zsd`elemCount
    ensures zsd.Valid()
    ensures ok <==> ReadSetting(old(zsd.Rest())).Got?
    ensures ok ==> value == ReadSetting(old(zsd.Rest())).value && zsd.payload == old(zsd.payload) + ReadSetting(old(zsd.Rest())).length
    ensures zsd.elemCount == old(zsd.elemCount) - if ok then 1 else 0
    ensures !ok ==> zsd.payload == old(zsd.payload)
  {
    hide ReadText, ReadInt64, ReadSimple;
    NothingThere();
    ok, value := false, BoolSetting(false);
    var major := Major(zsd.Peek());
    if major == 3 {
      var text;
      ok, text := TstrDecode(zsd);
      value := TextSetting(text);
    } else if major == 0 || major == 1 {
      var n;
      ok, n := Int64Decode(zsd);
      value := IntSetting(n);
    } else if major == 7 {
      ok, value := SimpleDecode(zsd);
    } else {
      NotSimpleHere(zsd.Rest());
    }
  }

  lemma NothingThere()
    ensures ReadText([]) == Failed && ReadInt64([]) == Failed && ReadSimple([]) == Failed
  {
  }

  lemma NotSimpleHere(s: seq<byte>)
    ensures s != [] && Major(s[0]) != 7 ==> ReadSimple(s) == Failed
  {
  }

  /** `settings_decode`; `updates` are the calls made to the user's handler. */
  method SettingsDecode(zsd: State, response: Response, handler: Handler) returns (err: int, updates: seq<Update>)
    requires zsd.Valid() && zsd.elemCount > 0 && response.Valid() && response.errors == []
    modifies zsd, response
    ensures response.Valid()
    ensures var r := DecodeAll(old(zsd.Rest()), zsd.past, handler);
      err == r.0 && Outcome(updates, response.errors) == r.1 && (err == 0 ==> zsd.payload == old(zsd.payload) + r.2)
  {
    hide SettingsLoop, ReadStart;
    updates := [];
    if zsd.payload < |zsd.buf| && zsd.buf[zsd.payload] == NIL {
      return -ENOENT, [];
    }
    ghost var rest := zsd.Rest();
    ghost var count;
    var ok;
    ok, count := StartDecode(zsd, 5);
    if !ok {
      return -EBADMSG, [];
    }
    assert zsd.Rest() == rest[ReadStart(rest, 5).length..];
    err, updates := DecodeSettings(zsd, response, handler, Pairs(count), zsd.payload);
  }

  /** One pair: a callback, or an error and a skip. */
  method SettingPair(zsd: State, response: Response, handler: Handler, updates: seq<Update>, ghost left: Option<nat>, ghost start: nat)
    returns (err: int, updates1: seq<Update>)
    requires Counting(zsd, Twice(left), start) && response.Valid() && !AtContainerEnd(zsd)
    modifies zsd, response
    ensures response.Valid() && (err == 0 || err == -EBADMSG) && zsd.Valid()
    ensures var r := SettingsLoop(old(zsd.Rest()), zsd.past, left, handler, Outcome(updates, old(response.errors)));
      if err == 0 then
        && left != Some(0) && Counting(zsd, Twice(OneLess(left)), start) && old(zsd.payload) < zsd.payload
        && var r1 := SettingsLoop(zsd.Rest(), zsd.past, OneLess(left), handler, Outcome(updates1, response.errors));
           r == (r1.0, r1.1, zsd.payload - old(zsd.payload) + r1.2)
      else r.0 == err && r.1 == Outcome(updates1, response.errors)
  {
    hide SettingsLoop, ReadText, ReadSetting, SkipItem, KeyFor, SmallError, OpenBytes, Apply, Reject;
    ghost var before, pos := zsd.Rest(), zsd.payload;
    ghost var out := Outcome(updates, response.errors);
    SettingsCases(before, zsd.past, left, handler, out);
    updates1 := updates;
    var ok, name := TstrDecode(zsd);
    if !ok {
      return -EBADMSG, updates;
    }
    RestLater(zsd.buf, pos, zsd.payload);
    ok, updates1 := SettingValue(zsd, response, handler, KeyFor(name), updates);
    if !ok {
      return -EBADMSG, updates1;
    }
    RestLater(zsd.buf, pos, zsd.payload);
    err := 0;
  }

  /** The value of a setting: a call of the handler, or an error and a skip. */
  method SettingValue(zsd: State, response: Response, handler: Handler, key: seq<byte>, updates: seq<Update>)
    returns (ok: bool, updates1: seq<Update>)
    requires zsd.Valid() && zsd.elemCount > 0 && response.Valid() && |key| <= MAX_NAME_LEN
    modifies zsd`payload, zsd`elemCount, response
    ensures zsd.Valid() && response.Valid()
    ensures var rest, out, out1 := old(zsd.Rest()), Outcome(updates, old(response.errors)), Outcome(updates1, response.errors);
      var v, n := ReadSetting(rest), SkipItem(rest, true);
      && out1 == (if v.Got? then Apply(out, Update(key, v.value), handler) else Reject(out, key))
      && (ok <==> v.Got? || n.Some?)
      && (ok ==> zsd.payload == old(zsd.payload) + (if v.Got? then v.length else n.value))
      && (ok ==> zsd.elemCount == old(zsd.elemCount) - 1)
  {
    hide ReadSetting, SkipItem, SmallError, OpenBytes;
    updates1 := updates;
    var value;
    ok, value := SettingDecode(zsd);
    if ok {
      updates1 := updates + [Update(key, value)];
      var status := handler(updates1);
      if status != 0 {
        response.AddError(key, status);
      }
    } else {
      response.AddError(key, VALUE_FORMAT_NOT_VALID);
      ok := zsd.AnySkip();
    }
  }

  /** The loop of `settings_decode`, and `zcbor_map_end_decode`. */
  method DecodeSettings(zsd: State, response: Response, handler: Handler, ghost pairs: Option<nat>, ghost start: nat)
    returns (err: int, updates: seq<Update>)
    requires Counting(zsd, Twice(pairs), start) && response.Valid()
    modifies zsd, response
    ensures response.Valid()
    ensures var r := SettingsLoop(old(zsd.Rest()), zsd.past, pairs, handler, Outcome([], old(response.errors)));
      err == r.0 && Outcome(updates, response.errors) == r.1 && (err == 0 ==> zsd.payload == old(zsd.payload) + r.2)
  {
    hide SettingsLoop, ReadText, ReadSetting, SkipItem, KeyFor, SmallError, OpenBytes;
    updates := [];
    ghost var left := pairs;
    while !AtContainerEnd(zsd)
      invariant Counting(zsd, Twice(left), start) && response.Valid() && old(zsd.payload) <= zsd.payload
      invariant var r := SettingsLoop(old(zsd.Rest()), zsd.past, pairs, handler, Outcome([], old(response.errors)));
        var r1 := SettingsLoop(zsd.Rest(), zsd.past, left, handler, Outcome(updates, response.errors));
        r == (r1.0, r1.1, zsd.payload - old(zsd.payload) + r1.2)
      decreases |zsd.buf| - zsd.payload
    {
      err, updates := SettingPair(zsd, response, handler, updates, left, start);
      if err != 0 {
        return;
      }
      left := OneLess(left);
    }
    SettingsCases(zsd.Rest(), zsd.past, left, handler, Outcome(updates, response.errors));
    if zsd.indefinite {
      if zsd.payload == |zsd.buf| {
        return -EBADMSG, updates;
      }
      zsd.payload := zsd.payload + 1;
    }
    err := 0;
  }
}
