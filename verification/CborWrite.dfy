/** The items zcbor's encoder writes: headers as short as they can be (section 4.2.1 of RFC 8949). */
module CborWrite {
  import opened Common
  import opened Cbor
  import opened MapTable

  function WidthFor(n: nat): Width
  {
    if n < 24 then Direct else if n < 0x100 then One else if n < 0x1_0000 then Two else if n < MOD32 then Four else Eight
  }

  /** The range of int64_t. */
  predicate Encodable(n: int)
  {
    -HALF64 <= n < HALF64
  }

  function TextItem(s: seq<byte>): Item
  {
    Item.Text(WidthFor(|s|), s)
  }

  function BytesItem(s: seq<byte>): Item
  {
    Item.Bytes(WidthFor(|s|), s)
  }

  function UintItem(n: nat): Item
  {
    UInt(WidthFor(n), n)
  }

  function IntItem(n: int): Item
  {
    if n >= 0 then UintItem(n) else NInt(WidthFor(-1 - n), -1 - n)
  }

  lemma WidthFits(n: nat)
    requires n < 2 * HALF64
    ensures Fits(WidthFor(n), n)
  {
    assert Pow256(1) == 256 && Pow256(2) == 65536 && Pow256(3) == 16777216 && Pow256(4) == MOD32;
    if n >= MOD32 {
      assert Pow256(5) == 256 * Pow256(4) && Pow256(6) == 256 * Pow256(5);
      assert Pow256(7) == 256 * Pow256(6) && Pow256(8) == 256 * Pow256(7);
    }
  }

  lemma TextSound(s: seq<byte>)
    requires |s| < HALF64
    ensures Sound(TextItem(s), true)
  {
    WidthFits(|s|);
  }

  lemma BytesSound(s: seq<byte>)
    requires |s| < HALF64
    ensures Sound(BytesItem(s), true)
  {
    WidthFits(|s|);
  }

  lemma UintSound(n: nat)
    requires n < 2 * HALF64
    ensures Sound(UintItem(n), true)
  {
    WidthFits(n);
  }

  lemma IntSound(n: int)
    requires Encodable(n)
    ensures Sound(IntItem(n), true)
  {
    WidthFits(if n >= 0 then n else -1 - n);
  }

  // ----- Items byte for byte, from appendix A of RFC 8949

  lemma NumberExamples()
    ensures Sound(UintItem(23), true) && Encode(UintItem(23)) == [0x17]
    ensures Sound(UintItem(24), true) && Encode(UintItem(24)) == [0x18, 0x18]
    ensures Sound(UintItem(1000), true) && Encode(UintItem(1000)) == [0x19, 0x03, 0xE8]
    ensures Sound(IntItem(-1), true) && Encode(IntItem(-1)) == [0x20]
    ensures Sound(IntItem(-1000), true) && Encode(IntItem(-1000)) == [0x39, 0x03, 0xE7]
  {
    UintSound(23);
    UintSound(24);
    UintSound(1000);
    IntSound(-1);
    IntSound(-1000);
    assert BigEndian(24, 1) == [24];
    assert BigEndian(1000, 2) == BigEndian(3, 1) + [0xE8] && BigEndian(3, 1) == [3];
    assert BigEndian(999, 2) == BigEndian(3, 1) + [0xE7];
  }

  lemma LongNumberExample()
    ensures Sound(UintItem(1_000_000), true) && Encode(UintItem(1_000_000)) == [0x1A, 0x00, 0x0F, 0x42, 0x40]
  {
    UintSound(1_000_000);
    assert BigEndian(0, 1) == [0] && BigEndian(15, 2) == [0, 0x0F] && BigEndian(3906, 3) == [0, 0x0F, 0x42];
    assert BigEndian(1_000_000, 4) == [0, 0x0F, 0x42, 0x40];
  }

  lemma StringExamples()
    ensures Sound(TextItem(Ascii("IETF")), true) && Encode(TextItem(Ascii("IETF"))) == [0x64, 0x49, 0x45, 0x54, 0x46]
    ensures Sound(BytesItem([1, 2, 3, 4]), true) && Encode(BytesItem([1, 2, 3, 4])) == [0x44, 0x01, 0x02, 0x03, 0x04]
  {
    TextSound(Ascii("IETF"));
    BytesSound([1, 2, 3, 4]);
  }

  lemma TwoNumbers()
    ensures var items := [UInt(Direct, 1), UInt(Direct, 2)];
      (forall x :: x in items ==> Sound(x, false)) && EncodeAll(items) == [0x01, 0x02]
  {
    var one, two := UInt(Direct, 1), UInt(Direct, 2);
    assert Encode(one) == [0x01] && Encode(two) == [0x02];
    hide Encode;
    assert [one, two][1..] == [two] && [two][1..] == [];
    assert EncodeAll([two]) == [0x02] + [];
    assert EncodeAll([one, two]) == [0x01] + [0x02];
  }

  lemma ListExamples()
    ensures var items := [UInt(Direct, 1), UInt(Direct, 2)];
      && Sound(List(Direct, 2, items), false) && Encode(List(Direct, 2, items)) == [0x82, 0x01, 0x02]
      && Sound(OpenList(items), false) && Encode(OpenList(items)) == [0x9F, 0x01, 0x02, 0xFF]
  {
    TwoNumbers();
    hide EncodeAll;
  }

  lemma MapExamples()
    ensures var items := [UInt(Direct, 1), UInt(Direct, 2)];
      && Sound(Map(Direct, 1, items), false) && Encode(Map(Direct, 1, items)) == [0xA1, 0x01, 0x02]
      && Sound(OpenMap(items), false) && Encode(OpenMap(items)) == [0xBF, 0x01, 0x02, 0xFF]
  {
    TwoNumbers();
    hide EncodeAll;
  }

  lemma TagAndSimpleExamples()
    ensures Sound(Tag(Direct, 1, UInt(Direct, 1)), false) && Encode(Tag(Direct, 1, UInt(Direct, 1))) == [0xC1, 0x01]
    ensures Sound(Item.Simple(Direct, 21), false) && Encode(Item.Simple(Direct, 21)) == [0xF5]
  {
    assert Encode(UInt(Direct, 1)) == [0x01];
  }
}
