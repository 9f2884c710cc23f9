/** Recursive length prefix encoding, Appendix B of the Ethereum Yellow Paper,
    and the strict decoder (no non-canonical sizes) that the program relies on. */
module Rlp {
  import opened ByteStrings

  datatype Item = Str(s: Bytes) | List(items: seq<Item>)

  datatype Kind = ByteKind | StringKind | ListKind

  datatype Split = Split(kind: Kind, content: Bytes, rest: Bytes)

  /** The length prefix; a length of 2^64 or more has no encoding. */
  function Header(offset: byte, n: nat): Bytes
    requires offset == 0x80 || offset == 0xc0
  {
    if n < 56 then [offset + n]
    else
      var size := BigEndian(n);
      if |size| <= 8 then [offset + 55 + |size|] + size else []
  }

  function Encode(x: Item): Bytes
    decreases x, 0
  {
    match x
    case Str(s) => if |s| == 1 && s[0] < 0x80 then s else Header(0x80, |s|) + s
    case List(items) =>
      var payload := EncodeAll(items);
      Header(0xc0, |payload|) + payload
  }

  function EncodeAll(items: seq<Item>): Bytes
    decreases items, 1
  {
    if items == [] then [] else Encode(items[0]) + EncodeAll(items[1..])
  }

  ghost predicate Encodable(x: Item)
    decreases x, 0
  {
    match x
    case Str(s) => |s| < Power256(8)
    case List(items) => |EncodeAll(items)| < Power256(8) && AllEncodable(items)
  }

  ghost predicate AllEncodable(items: seq<Item>)
    decreases items, 1
  {
    forall i :: 0 <= i < |items| ==> Encodable(items[i])
  }

  /** The size of a long form, rejecting a leading zero and sizes below 56. */
  function LongSize(b: Bytes, k: nat): Option<nat> {
    if |b| < 1 + k || k == 0 || b[1] == 0 then None
    else
      var n := FromBigEndian(b[1..1 + k]);
      if n < 56 then None else Some(n)
  }

  function Cut(kind: Kind, b: Bytes, tag: nat, size: nat): (r: Option<Split>)
    requires 0 < tag
    ensures r.Some? ==> |r.value.rest| < |b| && |r.value.content| < |b|
  {
    if |b| < tag + size then None
    else if kind == StringKind && size == 1 && tag == 1 && b[1] < 0x80 then None
    else Some(Split.Split(kind, b[tag..tag + size], b[tag + size..]))
  }

  /** rlp.Split: the first item's kind and content, and what follows it. */
  function SplitItem(b: Bytes): (r: Option<Split>)
    ensures r.Some? ==> |r.value.rest| < |b|
    ensures r.Some? && r.value.kind == ListKind ==> |r.value.content| < |b|
  {
    if b == [] then None
    else if b[0] < 0x80 then Some(Split.Split(ByteKind, b[..1], b[1..]))
    else if b[0] < 0xb8 then Cut(StringKind, b, 1, b[0] - 0x80)
    else if b[0] < 0xc0 then
      var n := LongSize(b, b[0] - 0xb7);
      if n.None? then None else Cut(StringKind, b, 1 + (b[0] - 0xb7), n.value)
    else if b[0] < 0xf8 then Cut(ListKind, b, 1, b[0] - 0xc0)
    else
      var n := LongSize(b, b[0] - 0xf7);
      if n.None? then None else Cut(ListKind, b, 1 + (b[0] - 0xf7), n.value)
  }

  /** The first item of b and the bytes after it. */
  function Decode(b: Bytes): (r: Option<(Item, Bytes)>)
    ensures r.Some? ==> |r.value.1| < |b|
    decreases |b|, 0
  {
    var split := SplitItem(b);
    if split.None? then None
    else if split.value.kind != ListKind then Some((Str(split.value.content), split.value.rest))
    else
      var items := DecodeAll(split.value.content);
      if items.None? then None else Some((List(items.value), split.value.rest))
  }

  /** All items of a list payload. */
  function DecodeAll(b: Bytes): Option<seq<Item>>
    decreases |b|, 1
  {
    if b == [] then Some([])
    else
      var head := Decode(b);
      if head.None? then None
      else
        var tail := DecodeAll(head.value.1);
        if tail.None? then None else Some([head.value.0] + tail.value)
  }

  /** rlp.DecodeBytes: exactly one item, nothing after it. */
  function DecodeBytes(b: Bytes): Option<Item> {
    var r := Decode(b);
    if r.Some? && r.value.1 == [] then Some(r.value.0) else None
  }

  // Splitting undoes the length prefix.

  lemma SplitShort(kind: Kind, content: Bytes, rest: Bytes)
    requires kind != ByteKind && |content| < 56
    requires kind == StringKind && |content| == 1 ==> content[0] >= 0x80
    ensures SplitItem([(if kind == ListKind then 0xc0 else 0x80) + |content|] + content + rest)
            == Some(Split.Split(kind, content, rest))
  {
    var n := |content|;
    var tag: byte := (if kind == ListKind then 0xc0 else 0x80) + n;
    var b: Bytes := [tag] + content + rest;
    assert n == 1 ==> b[1] == content[0];
    assert b[1..1 + n] == content && b[1 + n..] == rest;
  }

  lemma Slices(tag: byte, size: Bytes, content: Bytes, rest: Bytes)
    ensures var b := [tag] + size + content + rest;
            var k, n := |size|, |content|;
            && |b| == 1 + k + n + |rest| && b[0] == tag && b[1..1 + k] == size
            && b[1 + k..1 + k + n] == content && b[1 + k + n..] == rest
  {
  }

  lemma SplitAt(kind: Kind, b: Bytes, k: nat, n: nat)
    requires kind != ByteKind && 0 < k <= 8 && 1 + k + n <= |b| && n >= 56
    requires b[0] == (if kind == ListKind then 0xc0 else 0x80) + 55 + k
    requires b[1] != 0 && FromBigEndian(b[1..1 + k]) == n
    ensures SplitItem(b) == Some(Split.Split(kind, b[1 + k..1 + k + n], b[1 + k + n..]))
  {
    hide FromBigEndian;
  }

  lemma SplitLong(kind: Kind, tag: byte, size: Bytes, content: Bytes, rest: Bytes)
    requires kind != ByteKind && 0 < |size| <= 8
    requires tag == (if kind == ListKind then 0xc0 else 0x80) + 55 + |size|
    requires size[0] != 0 && FromBigEndian(size) == |content| >= 56
    ensures SplitItem([tag] + size + content + rest) == Some(Split.Split(kind, content, rest))
  {
    hide FromBigEndian, SplitItem;
    Slices(tag, size, content, rest);
    var b: Bytes := [tag] + size + content + rest;
    assert b[1] == b[1..1 + |size|][0];
    SplitAt(kind, b, |size|, |content|);
  }

  lemma SplitEncoded(kind: Kind, content: Bytes, rest: Bytes)
    requires kind != ByteKind && |content| < Power256(8)
    requires kind == StringKind && |content| == 1 ==> content[0] >= 0x80
    ensures SplitItem(Header(if kind == ListKind then 0xc0 else 0x80, |content|) + content + rest)
            == Some(Split.Split(kind, content, rest))
  {
    hide SplitItem, BigEndian, FromBigEndian, Power256;
    if |content| < 56 {
      SplitShort(kind, content, rest);
    } else {
      BigEndianLength(|content|, 8);
      BigEndianInverse(|content|);
      var size := BigEndian(|content|);
      SplitLong(kind, (if kind == ListKind then 0xc0 else 0x80) + 55 + |size|, size, content, rest);
    }
  }

  lemma {:induction false} DecodeEncoded(x: Item, rest: Bytes)
    requires Encodable(x)
    ensures Encode(x) != []
    ensures Decode(Encode(x) + rest) == Some((x, rest))
    decreases x, 0
  {
    match x
    case Str(s) =>
      if |s| == 1 && s[0] < 0x80 {
        assert (s + rest)[..1] == s && (s + rest)[1..] == rest;
      } else {
        SplitEncoded(StringKind, s, rest);
      }
    case List(items) =>
      var payload := EncodeAll(items);
      SplitEncoded(ListKind, payload, rest);
      DecodeAllEncoded(items);
  }

  lemma {:induction false} DecodeAllEncoded(items: seq<Item>)
    requires AllEncodable(items)
    ensures DecodeAll(EncodeAll(items)) == Some(items)
    decreases items, 1
  {
    if items != [] {
      DecodeEncoded(items[0], EncodeAll(items[1..]));
      DecodeAllEncoded(items[1..]);
      assert items == [items[0]] + items[1..];
    }
  }

  /** Decoding inverts encoding. */
  lemma DecodeBytesEncoded(x: Item)
    requires Encodable(x)
    ensures DecodeBytes(Encode(x)) == Some(x)
  {
    DecodeEncoded(x, []);
    assert Encode(x) + [] == Encode(x);
  }

  // Every accepted byte string is the encoding of what it decodes to.

  ghost predicate CanonicalSplit(b: Bytes, s: Split) {
    && |s.content| < Power256(8)
    && (s.kind == StringKind && |s.content| == 1 ==> s.content[0] >= 0x80)
    && b == Header(if s.kind == ListKind then 0xc0 else 0x80, |s.content|) + s.content + s.rest
  }

  lemma SizeFits()
    ensures Power256(8) > 56
  {
  }

  lemma CutShort(kind: Kind, b: Bytes, n: nat)
    requires kind != ByteKind && n < 56
    requires b != [] && b[0] == (if kind == ListKind then 0xc0 else 0x80) + n
    requires Cut(kind, b, 1, n).Some?
    ensures CanonicalSplit(b, Cut(kind, b, 1, n).value)
  {
    hide BigEndian;
    assert Power256(8) > 56 by { SizeFits(); }
    assert b == [b[0]] + b[1..1 + n] + b[1 + n..];
  }

  lemma CutLong(kind: Kind, b: Bytes, k: nat)
    requires kind != ByteKind && k <= 8
    requires b != [] && b[0] == (if kind == ListKind then 0xc0 else 0x80) + 55 + k
    requires LongSize(b, k).Some?
    requires Cut(kind, b, 1 + k, LongSize(b, k).value).Some?
    ensures CanonicalSplit(b, Cut(kind, b, 1 + k, LongSize(b, k).value).value)
  {
    var size := b[1..1 + k];
    var n := FromBigEndian(size);
    assert size[0] == b[1];
    FromBigEndianInverse(size);
    BigEndianLength(n, 8);
    assert b == [b[0]] + size + b[1 + k..1 + k + n] + b[1 + k + n..];
  }

  lemma SplitCanonical(b: Bytes)
    requires SplitItem(b).Some?
    ensures var s := SplitItem(b).value;
            if s.kind == ByteKind then |s.content| == 1 && s.content[0] < 0x80 && b == s.content + s.rest
            else CanonicalSplit(b, s)
  {
    if b[0] < 0x80 {
      assert b == b[..1] + b[1..];
    } else if b[0] < 0xb8 {
      CutShort(StringKind, b, b[0] - 0x80);
    } else if b[0] < 0xc0 {
      CutLong(StringKind, b, b[0] - 0xb7);
    } else if b[0] < 0xf8 {
      CutShort(ListKind, b, b[0] - 0xc0);
    } else {
      CutLong(ListKind, b, b[0] - 0xf7);
    }
  }

  lemma {:induction false} DecodeCanonical(b: Bytes)
    requires Decode(b).Some?
    ensures Encodable(Decode(b).value.0)
    ensures b == Encode(Decode(b).value.0) + Decode(b).value.1
    decreases |b|, 0
  {
    SplitCanonical(b);
    var s := SplitItem(b).value;
    if s.kind == ListKind {
      DecodeAllCanonical(s.content);
    }
  }

  lemma {:induction false} DecodeAllCanonical(b: Bytes)
    requires DecodeAll(b).Some?
    ensures AllEncodable(DecodeAll(b).value)
    ensures b == EncodeAll(DecodeAll(b).value)
    decreases |b|, 1
  {
    if b != [] {
      DecodeCanonical(b);
      var head := Decode(b).value;
      DecodeAllCanonical(head.1);
      var items := DecodeAll(b).value;
      assert items[0] == head.0 && items[1..] == DecodeAll(head.1).value;
    }
  }

  /** Strict decoding is canonical: an accepted string has no other spelling. */
  lemma DecodeBytesCanonical(b: Bytes)
    requires DecodeBytes(b).Some?
    ensures Encodable(DecodeBytes(b).value)
    ensures Encode(DecodeBytes(b).value) == b
  {
    DecodeCanonical(b);
    var x := DecodeBytes(b).value;
    assert Encode(x) + [] == Encode(x);
  }

  // Sizes.

  lemma HeaderSize(offset: byte, n: nat)
    requires offset == 0x80 || offset == 0xc0
    requires n < Power256(8)
    ensures |Header(offset, n)| == 1 + (if n < 56 then 0 else |BigEndian(n)|)
    ensures 1 <= |Header(offset, n)| <= 9
    ensures n < 256 ==> |Header(offset, n)| <= 2
    ensures |Header(offset, n)| > 1 ==> n >= 56
  {
    BigEndianLength(n, 8);
    BigEndianLength(n, 1);
  }

  lemma {:induction false} EncodeAllAppend(a: seq<Item>, b: seq<Item>)
    ensures EncodeAll(a + b) == EncodeAll(a) + EncodeAll(b)
  {
    if a == [] {
      assert a + b == b;
    } else {
      assert (a + b)[0] == a[0] && (a + b)[1..] == a[1..] + b;
      EncodeAllAppend(a[1..], b);
    }
  }
}
