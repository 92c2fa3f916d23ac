/** CBOR items (section 3 of RFC 8949) and their encodings, and what net/golioth/zcbor_any_skip_fixed.c skips.
    An item carries the width of its header, so every encoding of it, shortest or not, is covered. */
module Cbor {
  import opened Common

  // ----- Items and encodings

  /** Where the argument of a header is: in the first byte, or in the 1, 2, 4 or 8 bytes after it. */
  datatype Width = Direct | One | Two | Four | Eight

  datatype Item =
    | UInt(width: Width, value: nat)
    | NInt(width: Width, value: nat)
    | Bytes(width: Width, data: seq<byte>)
    | Text(width: Width, data: seq<byte>)
    | List(width: Width, count: nat, items: seq<Item>)
    | Map(width: Width, count: nat, items: seq<Item>)   // keys and values in turn
    | Tag(width: Width, value: nat, content: Item)
    | Simple(width: Width, value: nat)                   // simple values and floats, kept as bits
    | OpenList(items: seq<Item>)                         // of indefinite length
    | OpenMap(items: seq<Item>)

  const BREAK: byte := 0xFF

  function Size(w: Width): (r: nat)
    ensures r <= 8
  {
    match w
    case Direct => 0
    case One => 1
    case Two => 2
    case Four => 4
    case Eight => 8
  }

  /** The low five bits of a header byte. */
  function Additional(w: Width, n: nat): int
  {
    match w
    case Direct => n
    case One => 24
    case Two => 25
    case Four => 26
    case Eight => 27
  }

  function Pow256(n: nat): (r: nat)
    ensures r > 0
  {
    if n == 0 then 1 else 256 * Pow256(n - 1)
  }

  predicate Fits(w: Width, n: nat)
  {
    if w == Direct then n < 24 else n < Pow256(Size(w))
  }

  /** `n` in `len` bytes, most significant first. */
  function BigEndian(n: nat, len: nat): (s: seq<byte>)
    ensures |s| == len
  {
    if len == 0 then [] else BigEndian(n / 256, len - 1) + [n % 256]
  }

  function FromBigEndian(s: seq<byte>): nat
  {
    if s == [] then 0 else FromBigEndian(s[..|s| - 1]) * 256 + s[|s| - 1]
  }

  function Head(major: nat, w: Width, n: nat): (s: seq<byte>)
    requires major < 8 && Fits(w, n)
    ensures |s| == 1 + Size(w)
  {
    [(major * 32 + Additional(w, n)) as byte] + BigEndian(n, Size(w))
  }

  /** Well-formed: headers hold their arguments, and list and map headers announce what follows. `lax` admits list counts
      that agree only in their low 32 bits, indefinite maps with a key lacking its value, and simple values
      below 32 in two bytes. Tags above 32 bits and indefinite strings are left out: the client refuses them. */
  predicate Sound(i: Item, lax: bool)
  {
    match i
    case UInt(w, n) => Fits(w, n)
    case NInt(w, n) => Fits(w, n)
    case Bytes(w, d) => Fits(w, |d|)
    case Text(w, d) => Fits(w, |d|)
    case List(w, n, items) =>
      && Fits(w, n) && |items| == (if lax then n % MOD32 else n) && forall x :: x in items ==> Sound(x, lax)
    case Map(w, n, items) => Fits(w, n) && n < HALF32 && |items| == 2 * n && forall x :: x in items ==> Sound(x, lax)
    case Tag(w, n, c) => Fits(w, n) && w != Eight && Sound(c, lax)
    case Simple(w, n) => Fits(w, n) && (lax || w != One || n >= 32)
    case OpenList(items) => forall x :: x in items ==> Sound(x, lax)
    case OpenMap(items) => (lax || |items| % 2 == 0) && forall x :: x in items ==> Sound(x, lax)
  }

  function Encode(i: Item): (s: seq<byte>)
    requires Sound(i, true)
    ensures |s| >= 1 && s[0] != BREAK
    decreases i, 1
  {
    match i
    case UInt(w, n) => Head(0, w, n)
    case NInt(w, n) => Head(1, w, n)
    case Bytes(w, d) => Head(2, w, |d|) + d
    case Text(w, d) => Head(3, w, |d|) + d
    case List(w, n, items) => Head(4, w, n) + EncodeAll(items)
    case Map(w, n, items) => Head(5, w, n) + EncodeAll(items)
    case Tag(w, n, c) => Head(6, w, n) + Encode(c)
    case Simple(w, n) => Head(7, w, n)
    case OpenList(items) => [0x9F] + EncodeAll(items) + [BREAK]
    case OpenMap(items) => [0xBF] + EncodeAll(items) + [BREAK]
  }

  function EncodeAll(items: seq<Item>): (s: seq<byte>)
    requires forall x :: x in items ==> Sound(x, true)
    ensures |s| >= |items|
    decreases items, 0
  {
    if items == [] then [] else Encode(items[0]) + EncodeAll(items[1..])
  }

  // ----- Skipping

  function Major(b: byte): nat
  {
    b / 32
  }

  /** The bytes the argument takes after the header byte; `None` for 28 to 31. */
  function ArgumentSize(additional: nat): Option<nat>
  {
    if additional <= 23 then Some(0)
    else if additional == 24 then Some(1)
    else if additional == 25 then Some(2)
    else if additional == 26 then Some(4)
    else if additional == 27 then Some(8)
    else None
  }

  /** Argument and length of the header `s` starts with, if its argument has at most `limit` bytes
      and all of them are there (`value_extract`). */
  function ReadHead(s: seq<byte>, limit: nat): (r: Option<(nat, nat)>)
    ensures r.Some? ==> 1 <= r.value.1 <= |s|
  {
    if s == [] then None
    else match ArgumentSize(s[0] % 32)
      case None => None
      case Some(len) =>
        if len > limit || 1 + len > |s| then None
        else if len == 0 then Some((s[0] % 32, 1))
        else Some((FromBigEndian(s[1..1 + len]), 1 + len))
  }

  /** The length of the 32-bit tags `s` starts with; `None` if one is cut off or nothing follows. */
  function SkipTags(s: seq<byte>): (r: Option<nat>)
    ensures r.Some? ==> r.value < |s| && Major(s[r.value]) != 6
  {
    if s == [] then None
    else if Major(s[0]) != 6 then Some(0)
    else match ReadHead(s, 4)
      case None => None
      case Some((_, h)) =>
        match SkipTags(s[h..])
        case None => None
        case Some(n) => Some(h + n)
  }

  /** The length of the item `s` starts with, as `zcbor_any_skip_fixed` finds it. `counted` tells that the cursor's element
      count is not used up. */
  function SkipItem(s: seq<byte>, counted: bool): (r: Option<nat>)
    ensures r.Some? ==> 1 <= r.value <= |s|
    decreases |s|, 1
  {
    match SkipTags(s)
    case None => None
    case Some(t) =>
      if t > 0 && !counted then None
      else match SkipUntagged(s[t..], counted)
        case None => None
        case Some(n) => Some(t + n)
  }

  function SkipUntagged(s: seq<byte>, counted: bool): (r: Option<nat>)
    requires s != [] && Major(s[0]) != 6
    ensures r.Some? ==> 1 <= r.value <= |s|
    decreases |s|, 0
  {
    var major := Major(s[0]);
    if s[0] % 32 == 31 && (major == 4 || major == 5) then
      match SkipToBreak(s[1..])
      case None => None
      case Some(n) => Some(1 + n)
    else if !counted then None
    else match ReadHead(s, 8)
      case None => None
      case Some((value, h)) =>
        if major == 2 || major == 3 then if value > |s| - h then None else Some(h + value)
        else if major == 5 && value >= HALF32 then None
        else if major == 4 || major == 5 then
          match SkipMany(s[h..], Wrap32(if major == 5 then 2 * value else value))
          case None => None
          case Some(n) => Some(h + n)
        else Some(h)
  }

  /** The length of the `k` items `s` starts with. */
  function SkipMany(s: seq<byte>, k: nat): (r: Option<nat>)
    ensures r.Some? ==> k <= r.value <= |s|
    decreases |s|, 2
  {
    if k == 0 then Some(0)
    else match SkipItem(s, true)
      case None => None
      case Some(n) =>
        match SkipMany(s[n..], k - 1)
        case None => None
        case Some(m) => Some(n + m)
  }

  /** The length of the items up to and including the break. */
  function SkipToBreak(s: seq<byte>): (r: Option<nat>)
    ensures r.Some? ==> 1 <= r.value <= |s|
    decreases |s|, 2
  {
    if s == [] then None
    else if s[0] == BREAK then Some(1)
    else match SkipItem(s, true)
      case None => None
      case Some(n) =>
        match SkipToBreak(s[n..])
        case None => None
        case Some(m) => Some(n + m)
  }
}
