/**
 Bytes, and the length-prefixed stream that scripts/reconcile_legacy_v3_schema.py hashes.

 The stream determines the list of items: it can be read back, and nothing else reads back
 to that list.
 */
module Bytes {
  import opened Wrappers

  type Byte = n: nat | n < 256

  /** A length that eight bytes can hold. */
  const LIMIT: nat := 0x1_0000_0000_0000_0000

  type Item = b: seq<Byte> | |b| < LIMIT

  /* ---------- Numbers as bytes ---------- */

  function Power(width: nat): nat {
    if width == 0 then 1 else 256 * Power(width - 1)
  }

  /** The number in `width` bytes, most significant first. */
  function BigEndian(n: nat, width: nat): (r: seq<Byte>)
    ensures |r| == width
  {
    if width == 0 then [] else BigEndian(n / 256, width - 1) + [n % 256]
  }

  function Number(bytes: seq<Byte>): nat {
    if bytes == [] then 0 else Number(bytes[..|bytes| - 1]) * 256 + bytes[|bytes| - 1]
  }

  lemma {:induction false} NumberOfBigEndian(n: nat, width: nat)
    requires n < Power(width)
    ensures Number(BigEndian(n, width)) == n
  {
    if width > 0 {
      NumberOfBigEndian(n / 256, width - 1);
      var bytes := BigEndian(n, width);
      assert bytes[..|bytes| - 1] == BigEndian(n / 256, width - 1);
    }
  }

  lemma {:induction false} BigEndianOfNumber(bytes: seq<Byte>)
    ensures Number(bytes) < Power(|bytes|)
    ensures BigEndian(Number(bytes), |bytes|) == bytes
  {
    if bytes != [] {
      BigEndianOfNumber(bytes[..|bytes| - 1]);
      assert bytes == bytes[..|bytes| - 1] + [bytes[|bytes| - 1]];
    }
  }

  lemma EightBytes()
    ensures Power(8) == LIMIT
  {
    assert Power(1) == 256 && Power(2) == 0x1_0000 && Power(3) == 0x100_0000 && Power(4) == 0x1_0000_0000;
    assert Power(5) == 0x100_0000_0000 && Power(6) == 0x1_0000_0000_0000 && Power(7) == 0x100_0000_0000_0000;
  }

  /* ---------- The stream ---------- */

  function Frame(item: Item): seq<Byte> {
    BigEndian(|item|, 8) + item
  }

  function Framed(items: seq<Item>): seq<Byte> {
    if items == [] then [] else Framed(items[..|items| - 1]) + Frame(items[|items| - 1])
  }

  /** The digest is fed each item's length and then the item. */
  method Feed(items: seq<Item>) returns (stream: seq<Byte>)
    ensures stream == Framed(items)
  {
    stream := [];
    for n := 0 to |items|
      invariant stream == Framed(items[..n])
    {
      assert items[..n + 1][..n] == items[..n];
      stream := stream + BigEndian(|items[n]|, 8);
      stream := stream + items[n];
    }
    assert items[..|items|] == items;
  }

  /** Reads a stream back; None when it is not one. */
  function Unframed(stream: seq<Byte>): Option<seq<Item>> {
    if stream == [] then Some([])
    else if |stream| < 8 || |stream| - 8 < Number(stream[..8]) then None
    else
      ShortLength(stream[..8]);
      var n := Number(stream[..8]);
      var rest := Unframed(stream[8 + n..]);
      if rest.None? then None else Some([stream[8..8 + n]] + rest.value)
  }

  lemma ShortLength(bytes: seq<Byte>)
    requires |bytes| == 8
    ensures Number(bytes) < LIMIT
  {
    BigEndianOfNumber(bytes);
    EightBytes();
  }

  lemma {:induction false} FramedHead(items: seq<Item>)
    requires items != []
    ensures Framed(items) == Frame(items[0]) + Framed(items[1..])
  {
    hide Frame;
    var n := |items| - 1;
    if n == 0 {
      assert items[..0] == [] && items[1..] == [];
      assert Framed(items) == [] + Frame(items[0]);
    } else {
      FramedHead(items[..n]);
      var middle := items[1..];
      assert items[..n][1..] == middle[..n - 1] && middle[n - 1] == items[n];
      assert Framed(middle) == Framed(middle[..n - 1]) + Frame(items[n]);
      assert Framed(items) == (Frame(items[0]) + Framed(middle[..n - 1])) + Frame(items[n]);
    }
  }

  lemma UnframedHead(item: Item, rest: seq<Byte>)
    ensures Unframed(Frame(item) + rest) ==
            if Unframed(rest).None? then None else Some([item] + Unframed(rest).value)
  {
    var stream := Frame(item) + rest;
    EightBytes();
    NumberOfBigEndian(|item|, 8);
    assert stream[..8] == BigEndian(|item|, 8);
    assert stream[8..8 + |item|] == item && stream[8 + |item|..] == rest;
  }

  lemma {:induction false} UnframedOfFramed(items: seq<Item>)
    ensures Unframed(Framed(items)) == Some(items)
  {
    hide Frame;
    if items != [] {
      FramedHead(items);
      UnframedOfFramed(items[1..]);
      UnframedHead(items[0], Framed(items[1..]));
      assert items == [items[0]] + items[1..];
    }
  }

  lemma {:induction false} FramedOfUnframed(stream: seq<Byte>)
    ensures Unframed(stream).Some? ==> stream == Framed(Unframed(stream).value)
  {
    hide BigEndian, Number;
    if Unframed(stream).Some? && stream != [] {
      var n := Number(stream[..8]);
      ShortLength(stream[..8]);
      var head: Item, rest := stream[8..8 + n], stream[8 + n..];
      var tail := Unframed(rest).value;
      FramedOfUnframed(rest);
      FramedHead([head] + tail);
      assert ([head] + tail)[1..] == tail;
      BigEndianOfNumber(stream[..8]);
      assert stream == stream[..8] + head + rest;
    }
  }

  /** A stream reads back as a list exactly when it is the stream of that list. */
  lemma UnframedIsInverse(stream: seq<Byte>, items: seq<Item>)
    ensures Unframed(stream) == Some(items) <==> stream == Framed(items)
  {
    hide Unframed, Framed;
    UnframedOfFramed(items);
    FramedOfUnframed(stream);
  }

  /** Different lists have different streams. */
  lemma FramingIsInjective(a: seq<Item>, b: seq<Item>)
    requires Framed(a) == Framed(b)
    ensures a == b
  {
    UnframedIsInverse(Framed(a), a);
    UnframedIsInverse(Framed(b), b);
  }
}
