/** Skipping undoes encoding, and nothing else: the skipper accepts exactly the encodings of items. */
module CborSkip {
  import opened Common
  import opened Cbor

  // ----- Headers

  lemma {:induction false} BigEndianRead(n: nat, len: nat)
    requires n < Pow256(len)
    ensures FromBigEndian(BigEndian(n, len)) == n
  {
    if len > 0 {
      BigEndianRead(n / 256, len - 1);
      assert BigEndian(n, len)[..len - 1] == BigEndian(n / 256, len - 1);
    }
  }

  lemma {:induction false} BigEndianWritten(s: seq<byte>)
    ensures FromBigEndian(s) < Pow256(|s|)
    ensures BigEndian(FromBigEndian(s), |s|) == s
  {
    if s != [] {
      BigEndianWritten(s[..|s| - 1]);
      var n := FromBigEndian(s);
      assert n / 256 == FromBigEndian(s[..|s| - 1]) && n % 256 == s[|s| - 1];
    }
  }

  lemma HeadRead(major: nat, w: Width, n: nat, rest: seq<byte>, limit: nat)
    requires major < 8 && Fits(w, n)
    ensures var s := Head(major, w, n) + rest;
      && Major(s[0]) == major && s[0] % 32 == Additional(w, n) < 31
      && ReadHead(s, limit) == if Size(w) <= limit then Some((n, 1 + Size(w))) else None
  {
    var s := Head(major, w, n) + rest;
    assert s[1..1 + Size(w)] == BigEndian(n, Size(w));
    if w != Direct { BigEndianRead(n, Size(w)); }
  }

  lemma HeadWritten(s: seq<byte>, limit: nat) returns (w: Width)
    requires ReadHead(s, limit).Some?
    ensures var (n, h) := ReadHead(s, limit).value;
      Fits(w, n) && h == 1 + Size(w) && Size(w) <= limit && s[..h] == Head(Major(s[0]), w, n)
  {
    hide FromBigEndian, BigEndian, Pow256;
    var additional := s[0] % 32;
    w := if additional <= 23 then Direct else if additional == 24 then One else if additional == 25 then Two
         else if additional == 26 then Four else Eight;
    var (n, h) := ReadHead(s, limit).value;
    if w != Direct { BigEndianWritten(s[1..h]); }
    assert s[..h] == [s[0]] + s[1..h];
  }

  lemma FourIsBelow(w: Width, n: nat)
    requires Fits(w, n) && w != Eight
    ensures n < MOD32
  {
    assert Pow256(1) == 256 && Pow256(2) == 65536 && Pow256(3) == 16777216 && Pow256(4) == MOD32;
  }

  // ----- Skipping an encoding

  function TagLength(i: Item): nat
  {
    if i.Tag? then 1 + Size(i.width) + TagLength(i.content) else 0
  }

  /** `s` starts with `t` bytes of tags and then an untagged item, `n` bytes in all. */
  ghost predicate SkipsAs(s: seq<byte>, t: nat, n: nat)
  {
    t <= n && SkipTags(s) == Some(t) && SkipUntagged(s[t..], true) == Some(n - t)
  }

  lemma SkipsAsItem(s: seq<byte>, t: nat, n: nat)
    requires SkipsAs(s, t, n)
    ensures SkipItem(s, true) == Some(n)
  {
  }

  /** Skipping any encoded item leaves exactly what follows it. */
  lemma {:induction false} SkipEncode(i: Item, rest: seq<byte>)
    requires Sound(i, true)
    ensures SkipItem(Encode(i) + rest, true) == Some(|Encode(i)|)
    decreases i, 1
  {
    hide *;
    SkipParts(i, rest);
    SkipsAsItem(Encode(i) + rest, TagLength(i), |Encode(i)|);
  }

  lemma {:induction false} SkipParts(i: Item, rest: seq<byte>)
    requires Sound(i, true)
    ensures SkipsAs(Encode(i) + rest, TagLength(i), |Encode(i)|)
    decreases i, 0
  {
    hide SkipsAs, Head, Fits, SkipItem;
    match i
    case UInt(w, n) => SkipLeaf(0, w, n, rest);
    case NInt(w, n) => SkipLeaf(1, w, n, rest);
    case Simple(w, n) => SkipLeaf(7, w, n, rest);
    case Bytes(w, d) => SkipString(2, w, d, rest);
    case Text(w, d) => SkipString(3, w, d, rest);
    case List(w, n, items) =>
      SkipAll(items, rest);
      SkipContainer(4, w, n, EncodeAll(items), rest);
    case Map(w, n, items) =>
      SkipAll(items, rest);
      SkipContainer(5, w, n, EncodeAll(items), rest);
    case Tag(w, n, c) =>
      SkipParts(c, rest);
      SkipTagged(w, n, Encode(c), rest, TagLength(c));
    case OpenList(items) =>
      SkipOpen(items, rest);
      SkipOpened(0x9F, EncodeAll(items), rest);
    case OpenMap(items) =>
      SkipOpen(items, rest);
      SkipOpened(0xBF, EncodeAll(items), rest);
  }

  lemma SkipLeaf(major: nat, w: Width, n: nat, rest: seq<byte>)
    requires (major == 0 || major == 1 || major == 7) && Fits(w, n)
    ensures SkipsAs(Head(major, w, n) + rest, 0, |Head(major, w, n)|)
  {
    hide ReadHead, SkipMany, SkipToBreak, Fits;
    var s := Head(major, w, n) + rest;
    HeadRead(major, w, n, rest, 8);
    assert s[0..] == s;
  }

  lemma SkipTagged(w: Width, n: nat, c: seq<byte>, rest: seq<byte>, t: nat)
    requires Fits(w, n) && w != Eight && SkipsAs(c + rest, t, |c|)
    ensures SkipsAs(Head(6, w, n) + c + rest, 1 + Size(w) + t, |Head(6, w, n) + c|)
  {
    hide SkipUntagged, SkipTags, ReadHead;
    var head := Head(6, w, n);
    hide Head;
    var s := head + c + rest;
    var h := 1 + Size(w);
    assert s == head + (c + rest);
    HeadRead(6, w, n, c + rest, 4);
    assert s[h..] == c + rest;
    assert s[h + t..] == (c + rest)[t..];
    OneMoreTag(s);
  }

  lemma OneMoreTag(s: seq<byte>)
    requires s != [] && Major(s[0]) == 6 && ReadHead(s, 4).Some?
    ensures var h := ReadHead(s, 4).value.1;
      SkipTags(s[h..]).Some? ==> SkipTags(s) == Some(h + SkipTags(s[h..]).value)
  {
    hide ReadHead;
  }

  lemma SkipString(major: nat, w: Width, d: seq<byte>, rest: seq<byte>)
    requires (major == 2 || major == 3) && Fits(w, |d|)
    ensures SkipsAs(Head(major, w, |d|) + d + rest, 0, |Head(major, w, |d|) + d|)
  {
    hide SkipUntagged, ReadHead, Head, Fits;
    var head := Head(major, w, |d|);
    Regroup(head, d, rest);
    HeadRead(major, w, |d|, d + rest, 8);
    StringHead(head + d + rest);
  }

  lemma StringHead(s: seq<byte>)
    requires s != [] && (Major(s[0]) == 2 || Major(s[0]) == 3) && ReadHead(s, 8).Some?
    ensures var (n, h) := ReadHead(s, 8).value;
      n <= |s| - h ==> SkipUntagged(s, true) == Some(h + n)
  {
    hide ReadHead;
  }

  lemma SkipContainer(major: nat, w: Width, n: nat, content: seq<byte>, rest: seq<byte>)
    requires (major == 4 || major == 5) && Fits(w, n) && (major == 5 ==> n < HALF32)
    requires SkipMany(content + rest, if major == 4 then n % MOD32 else 2 * n) == Some(|content|)
    ensures SkipsAs(Head(major, w, n) + content + rest, 0, |Head(major, w, n) + content|)
  {
    hide SkipItem, SkipMany, SkipToBreak, SkipUntagged, ReadHead, Head, Fits;
    var s := Head(major, w, n) + content + rest;
    Regroup(Head(major, w, n), content, rest);
    HeadRead(major, w, n, content + rest, 8);
    ContainerHead(s, content + rest, 1 + Size(w));
  }

  /** What a list or map header announces. */
  lemma ContainerHead(s: seq<byte>, content: seq<byte>, h: nat)
    requires s != [] && (Major(s[0]) == 4 || Major(s[0]) == 5) && s[0] % 32 != 31
    requires ReadHead(s, 8).Some? && ReadHead(s, 8).value.1 == h && s[h..] == content
    requires Major(s[0]) == 5 ==> ReadHead(s, 8).value.0 < HALF32
    ensures var n := ReadHead(s, 8).value.0;
      SkipUntagged(s, true) ==
      match SkipMany(content, Wrap32(if Major(s[0]) == 5 then 2 * n else n))
      case None => None
      case Some(m) => Some(h + m)
  {
    hide SkipToBreak, SkipMany, ReadHead;
  }

  lemma SkipOpened(first: byte, content: seq<byte>, rest: seq<byte>)
    requires first == 0x9F || first == 0xBF
    requires SkipToBreak(content + [BREAK] + rest) == Some(|content| + 1)
    ensures SkipsAs([first] + content + [BREAK] + rest, 0, |[first] + content + [BREAK]|)
  {
    hide SkipItem;
    var s := [first] + content + [BREAK] + rest;
    assert s[1..] == content + [BREAK] + rest;
    OpenHead(s);
  }

  lemma OpenHead(s: seq<byte>)
    requires s != [] && (s[0] == 0x9F || s[0] == 0xBF)
    ensures SkipUntagged(s, true) == match SkipToBreak(s[1..]) case None => None case Some(n) => Some(1 + n)
  {
    hide SkipToBreak, SkipMany, ReadHead;
  }

  lemma {:induction false} SkipAll(items: seq<Item>, rest: seq<byte>)
    requires forall x :: x in items ==> Sound(x, true)
    ensures SkipMany(EncodeAll(items) + rest, |items|) == Some(|EncodeAll(items)|)
    decreases items, 0
  {
    hide *;
    if items == [] {
      SkipNone(rest);
    } else {
      var s := EncodeAll(items) + rest;
      var tail := EncodeAll(items[1..]) + rest;
      EncodeFirst(items, rest);
      SkipEncode(items[0], tail);
      assert s[|Encode(items[0])|..] == tail;
      SkipAll(items[1..], rest);
      SkipManyStep(s, |items|);
    }
  }

  lemma SkipNone(rest: seq<byte>)
    ensures SkipMany(EncodeAll([]) + rest, 0) == Some(|EncodeAll([])|)
  {
  }

  lemma Regroup(a: seq<byte>, b: seq<byte>, c: seq<byte>)
    ensures a + b + c == a + (b + c)
  {
  }

  lemma AllOf(items: seq<Item>)
    requires items != [] && forall x :: x in items ==> Sound(x, true)
    ensures EncodeAll(items) == Encode(items[0]) + EncodeAll(items[1..])
  {
    hide Encode, Sound;
  }

  lemma EncodeFirst(items: seq<Item>, rest: seq<byte>)
    requires items != [] && forall x :: x in items ==> Sound(x, true)
    ensures EncodeAll(items) + rest == Encode(items[0]) + (EncodeAll(items[1..]) + rest)
    ensures |EncodeAll(items)| == |Encode(items[0])| + |EncodeAll(items[1..])|
  {
    hide Encode, Sound, EncodeAll;
    AllOf(items);
    Regroup(Encode(items[0]), EncodeAll(items[1..]), rest);
  }

  lemma SkipManyStep(s: seq<byte>, k: nat)
    requires k > 0 && SkipItem(s, true).Some?
    ensures SkipMany(s, k) ==
      (var n := SkipItem(s, true).value;
       match SkipMany(s[n..], k - 1)
       case None => None
       case Some(m) => Some(n + m))
  {
  }

  lemma {:induction false} SkipOpen(items: seq<Item>, rest: seq<byte>)
    requires forall x :: x in items ==> Sound(x, true)
    ensures SkipToBreak(EncodeAll(items) + [BREAK] + rest) == Some(|EncodeAll(items)| + 1)
    decreases items, 0
  {
    hide *;
    var s := EncodeAll(items) + [BREAK] + rest;
    if items == [] {
      BreakNow(rest);
    } else {
      var tail := EncodeAll(items[1..]) + [BREAK] + rest;
      EncodeFirst(items, [BREAK] + rest);
      assert s == EncodeAll(items) + ([BREAK] + rest);
      assert tail == EncodeAll(items[1..]) + ([BREAK] + rest);
      SkipEncode(items[0], tail);
      assert s[|Encode(items[0])|..] == tail;
      SkipOpen(items[1..], rest);
      SkipToBreakStep(s);
    }
  }

  lemma BreakNow(rest: seq<byte>)
    ensures SkipToBreak(EncodeAll([]) + [BREAK] + rest) == Some(|EncodeAll([])| + 1)
  {
    assert (EncodeAll([]) + [BREAK] + rest)[0] == BREAK;
  }

  lemma SkipToBreakStep(s: seq<byte>)
    requires s != [] && s[0] != BREAK && SkipItem(s, true).Some?
    ensures SkipToBreak(s) ==
      (var n := SkipItem(s, true).value;
       match SkipToBreak(s[n..])
       case None => None
       case Some(m) => Some(n + m))
  {
  }

  // ----- What is skipped is an encoding

  /** Whatever is skipped is the encoding of an item, read leniently. */
  lemma {:induction false} SkippedIsItem(s: seq<byte>) returns (i: Item)
    requires SkipItem(s, true).Some?
    ensures Sound(i, true) && Encode(i) == s[..SkipItem(s, true).value]
    decreases |s|, 1
  {
    hide SkipUntagged, SkipMany, SkipToBreak, SkipTags, SkipItem, ReadHead;
    SkipItemCases(s);
    if Major(s[0]) == 6 {
      var w := HeadWritten(s, 4);
      var (n, h) := ReadHead(s, 4).value;
      var c := SkippedIsItem(s[h..]);
      i := Tag(w, n, c);
      TwoPrefixes(s, h, SkipItem(s[h..], true).value);
    } else {
      i := SkippedUntagged(s);
    }
  }

  /** Skipping an item, its first tag told apart. */
  lemma SkipItemCases(s: seq<byte>)
    requires SkipItem(s, true).Some?
    ensures s != []
    ensures Major(s[0]) != 6 ==> SkipUntagged(s, true) == SkipItem(s, true)
    ensures Major(s[0]) == 6 ==>
      && ReadHead(s, 4).Some?
      && (var h := ReadHead(s, 4).value.1;
          SkipItem(s[h..], true).Some? && SkipItem(s, true).value == h + SkipItem(s[h..], true).value)
  {
    hide SkipUntagged, ReadHead;
    if Major(s[0]) == 6 {
      var h := ReadHead(s, 4).value.1;
      var t := SkipTags(s[h..]).value;
      assert s[h + t..] == s[h..][t..];
    } else {
      assert s[0..] == s;
    }
  }

  lemma TwoPrefixes(s: seq<byte>, h: nat, m: nat)
    requires h + m <= |s|
    ensures s[..h + m] == s[..h] + s[h..][..m]
  {
  }

  lemma {:induction false} SkippedUntagged(s: seq<byte>) returns (i: Item)
    requires s != [] && Major(s[0]) != 6 && SkipUntagged(s, true).Some?
    ensures Sound(i, true) && Encode(i) == s[..SkipUntagged(s, true).value]
    decreases |s|, 0
  {
    hide *;
    var major := Major(s[0]);
    UntaggedCases(s);
    if s[0] % 32 == 31 && (major == 4 || major == 5) {
      var items := SkippedToBreak(s[1..]);
      i := OpenItem(s[0], items);
      var n := SkipToBreak(s[1..]).value;
      TwoPrefixes(s, 1, n);
      assert s[..1] == [s[0]];
    } else {
      var w := HeadWritten(s, 8);
      var (n, h) := ReadHead(s, 8).value;
      if major == 2 || major == 3 {
        i := StringItem(major, w, s[h..h + n]);
        assert s[..h + n] == s[..h] + s[h..h + n];
      } else if major == 4 || major == 5 {
        var k := Wrap32(if major == 5 then 2 * n else n);
        var items := SkippedMany(s[h..], k);
        i := ContainerItem(major, w, n, items);
        var m := SkipMany(s[h..], k).value;
        TwoPrefixes(s, h, m);
      } else {
        i := LeafItem(major, w, n);
      }
    }
  }

  lemma OpenItem(first: byte, items: seq<Item>) returns (i: Item)
    requires (first == 0x9F || first == 0xBF) && forall x :: x in items ==> Sound(x, true)
    ensures Sound(i, true) && Encode(i) == [first] + (EncodeAll(items) + [BREAK])
  {
    i := if first == 0x9F then OpenList(items) else OpenMap(items);
  }

  lemma StringItem(major: nat, w: Width, d: seq<byte>) returns (i: Item)
    requires (major == 2 || major == 3) && Fits(w, |d|)
    ensures Sound(i, true) && Encode(i) == Head(major, w, |d|) + d
  {
    i := if major == 2 then Bytes(w, d) else Text(w, d);
  }

  lemma ContainerItem(major: nat, w: Width, n: nat, items: seq<Item>) returns (i: Item)
    requires (major == 4 || major == 5) && Fits(w, n) && (major == 5 ==> n < HALF32)
    requires |items| == Wrap32(if major == 5 then 2 * n else n) && forall x :: x in items ==> Sound(x, true)
    ensures Sound(i, true) && Encode(i) == Head(major, w, n) + EncodeAll(items)
  {
    i := if major == 4 then List(w, n, items) else Map(w, n, items);
  }

  lemma LeafItem(major: nat, w: Width, n: nat) returns (i: Item)
    requires (major == 0 || major == 1 || major == 7) && Fits(w, n)
    ensures Sound(i, true) && Encode(i) == Head(major, w, n)
  {
    i := if major == 0 then UInt(w, n) else if major == 1 then NInt(w, n) else Simple(w, n);
  }

  /** What a successful skip of an untagged item has found. */
  lemma UntaggedCases(s: seq<byte>)
    requires s != [] && Major(s[0]) != 6 && SkipUntagged(s, true).Some?
    ensures var major := Major(s[0]);
      var total := SkipUntagged(s, true).value;
      if s[0] % 32 == 31 && (major == 4 || major == 5) then
        SkipToBreak(s[1..]).Some? && total == 1 + SkipToBreak(s[1..]).value && s[0] == (if major == 4 then 0x9F else 0xBF)
      else
        && ReadHead(s, 8).Some?
        && var (n, h) := ReadHead(s, 8).value;
           if major == 2 || major == 3 then h + n <= |s| && total == h + n
           else if major == 4 || major == 5 then
             var k := Wrap32(if major == 5 then 2 * n else n);
             && (major == 5 ==> n < HALF32)
             && SkipMany(s[h..], k).Some? && total == h + SkipMany(s[h..], k).value
           else total == h && (major == 0 || major == 1 || major == 7)
  {
  }

  lemma {:induction false} SkippedMany(s: seq<byte>, k: nat) returns (items: seq<Item>)
    requires SkipMany(s, k).Some?
    ensures |items| == k && (forall x :: x in items ==> Sound(x, true))
    ensures EncodeAll(items) == s[..SkipMany(s, k).value]
    decreases |s|, 2
  {
    hide *;
    items := [];
    if k == 0 {
      NoneSkipped(s);
    } else {
      FirstSkipped(s, k);
      SkipManyStep(s, k);
      var n := SkipItem(s, true).value;
      var first := SkippedIsItem(s);
      var others := SkippedMany(s[n..], k - 1);
      items := [first] + others;
      EncodeCons(first, others);
      var m := SkipMany(s[n..], k - 1).value;
      assert s[..n + m] == s[..n] + s[n..][..m];
    }
  }

  lemma NoneSkipped(s: seq<byte>)
    ensures SkipMany(s, 0) == Some(0) && EncodeAll([]) == s[..0]
  {
  }

  lemma FirstSkipped(s: seq<byte>, k: nat)
    requires k > 0 && SkipMany(s, k).Some?
    ensures SkipItem(s, true).Some? && SkipMany(s[SkipItem(s, true).value..], k - 1).Some?
  {
  }

  lemma EncodeCons(first: Item, others: seq<Item>)
    requires Sound(first, true) && forall x :: x in others ==> Sound(x, true)
    ensures EncodeAll([first] + others) == Encode(first) + EncodeAll(others)
  {
    assert ([first] + others)[1..] == others;
  }

  lemma {:induction false} SkippedToBreak(s: seq<byte>) returns (items: seq<Item>)
    requires SkipToBreak(s).Some?
    ensures forall x :: x in items ==> Sound(x, true)
    ensures EncodeAll(items) + [BREAK] == s[..SkipToBreak(s).value]
    decreases |s|, 2
  {
    hide *;
    items := [];
    BreakCases(s);
    if s[0] != BREAK {
      SkipToBreakStep(s);
      var n := SkipItem(s, true).value;
      var first := SkippedIsItem(s);
      var others := SkippedToBreak(s[n..]);
      items := [first] + others;
      EncodeCons(first, others);
      var m := SkipToBreak(s[n..]).value;
      assert s[..n + m] == s[..n] + s[n..][..m];
    }
  }

  lemma BreakCases(s: seq<byte>)
    requires SkipToBreak(s).Some?
    ensures s != []
    ensures s[0] == BREAK ==> SkipToBreak(s) == Some(1) && EncodeAll([]) + [BREAK] == s[..1]
    ensures s[0] != BREAK ==> SkipItem(s, true).Some? && SkipToBreak(s[SkipItem(s, true).value..]).Some?
  {
  }

  /** The skipper accepts `n` bytes exactly when they encode an item, read leniently. */
  lemma SkipIsExact(s: seq<byte>, n: nat)
    ensures SkipItem(s, true) == Some(n) <==> n <= |s| && exists i :: Sound(i, true) && Encode(i) == s[..n]
  {
    hide SkipItem, Encode, Sound;
    if SkipItem(s, true) == Some(n) {
      var i := SkippedIsItem(s);
    }
    if n <= |s| && exists i :: Sound(i, true) && Encode(i) == s[..n] {
      var i :| Sound(i, true) && Encode(i) == s[..n];
      SkipEncode(i, s[n..]);
      assert s == s[..n] + s[n..];
    }
  }

  /** With the element count used up, only untagged containers of indefinite length are skipped, like with a count left. */
  lemma SkipUsedUp(s: seq<byte>)
    ensures SkipItem(s, false) == if s != [] && (s[0] == 0x9F || s[0] == 0xBF) then SkipItem(s, true) else None
    ensures SkipItem([0x9F, BREAK], false) == Some(2)
  {
    hide SkipToBreak, SkipMany, ReadHead;
    assert s != [] ==> s[0..] == s;
    EmptyListSkipped();
  }

  lemma EmptyListSkipped()
    ensures SkipItem([0x9F, BREAK], false) == Some(2)
  {
    var s := [0x9F, BREAK];
    assert s[0..] == s && s[1..] == [BREAK];
    assert SkipToBreak([BREAK]) == Some(1);
    assert SkipTags(s) == Some(0);
    assert SkipUntagged(s, false) == Some(2);
  }

  lemma {:induction false} StrictIsLax(i: Item)
    requires Sound(i, false) && SmallCounts(i)
    ensures Sound(i, true)
  {
    match i
    case List(_, _, items) =>
      forall x | x in items ensures Sound(x, true) { StrictIsLax(x); }
    case Map(_, _, items) =>
      forall x | x in items ensures Sound(x, true) { StrictIsLax(x); }
    case OpenList(items) =>
      forall x | x in items ensures Sound(x, true) { StrictIsLax(x); }
    case OpenMap(items) =>
      forall x | x in items ensures Sound(x, true) { StrictIsLax(x); }
    case Tag(_, _, c) => StrictIsLax(c);
    case _ =>
  }

  /** No list has 2^32 items or more, as none does whose encoding fits a 32-bit address space. */
  predicate SmallCounts(i: Item)
  {
    match i
    case List(_, n, items) => |items| < MOD32 && forall x :: x in items ==> SmallCounts(x)
    case Map(_, _, items) => forall x :: x in items ==> SmallCounts(x)
    case OpenList(items) => forall x :: x in items ==> SmallCounts(x)
    case OpenMap(items) => forall x :: x in items ==> SmallCounts(x)
    case Tag(_, _, c) => SmallCounts(c)
    case _ => true
  }

  /** Two encodings the skipper accepts that section 3 of RFC 8949 does not: a list header announcing 2^32 items with none
      after it, and an indefinite map with a single key. */
  lemma SkipsMalformed()
    ensures SkipItem([0x9B, 0, 0, 0, 1, 0, 0, 0, 0], true) == Some(9)
    ensures SkipItem([0xBF, 0x01, 0xFF], true) == Some(3)
  {
    hide *;
    CountWraps([0x9B, 0, 0, 0, 1, 0, 0, 0, 0]);
    KeyAlone();
  }

  lemma CountWraps(s: seq<byte>)
    requires s == [0x9B, 0, 0, 0, 1, 0, 0, 0, 0]
    ensures SkipItem(s, true) == Some(9)
  {
    hide SkipUntagged, SkipMany;
    assert FromBigEndian(s[1..9]) == MOD32 by { EightBytes(s[1..9]); }
    assert ReadHead(s, 8) == Some((MOD32, 9));
    assert s[9..] == [] && s[0..] == s;
    ContainerHead(s, [], 9);
    NoneSkipped([]);
  }

  lemma EightBytes(b: seq<byte>)
    requires b == [0, 0, 0, 1, 0, 0, 0, 0]
    ensures FromBigEndian(b) == MOD32
  {
    BigEndianMore([], 0, [0]);
    BigEndianMore([0], 0, [0, 0]);
    BigEndianMore([0, 0], 0, [0, 0, 0]);
    BigEndianMore([0, 0, 0], 1, [0, 0, 0, 1]);
    BigEndianMore([0, 0, 0, 1], 0, [0, 0, 0, 1, 0]);
    BigEndianMore([0, 0, 0, 1, 0], 0, [0, 0, 0, 1, 0, 0]);
    BigEndianMore([0, 0, 0, 1, 0, 0], 0, [0, 0, 0, 1, 0, 0, 0]);
    BigEndianMore([0, 0, 0, 1, 0, 0, 0], 0, b);
  }

  lemma BigEndianMore(s: seq<byte>, last: byte, all: seq<byte>)
    requires all == s + [last]
    ensures FromBigEndian(all) == FromBigEndian(s) * 256 + last
  {
    assert all[..|s|] == s;
  }

  lemma KeyAlone()
    ensures SkipItem([0xBF, 0x01, 0xFF], true) == Some(3)
  {
    hide *;
    OneKey();
    var key := LeafItem(0, Direct, 1);
    var i := OpenItem(0xBF, [key]);
    EncodeCons(key, []);
    NoneSkipped([]);
    assert [key] + [] == [key];
    assert Encode(i) + [] == [0xBF, 0x01, 0xFF];
    SkipEncode(i, []);
  }

  lemma OneKey()
    ensures Fits(Direct, 1) && Head(0, Direct, 1) == [1] && BREAK == 0xFF
  {
  }
}
