/** The byte formats, position by position: what each encoder puts where, said without the
    decoders and helpers it shares with the rest of the model. */
module Layouts {
  import opened ByteStrings
  import opened Sums
  import Rlp
  import Trie
  import AccountCodec
  import Records

  // Integers and order.

  /** The first byte of a big-endian number is the most significant one. */
  lemma {:induction false} FirstByteWeighsMost(x: byte, b: Bytes)
    ensures FromBigEndian([x] + b) == x * Power256(|b|) + FromBigEndian(b)
  {
    if b == [] {
      assert [x] + b == [x] && [x][..0] == [];
      assert FromBigEndian([x]) == 256 * FromBigEndian([x][..0]) + x;
    } else {
      var n := |b| - 1;
      FirstByteWeighsMost(x, b[..n]);
      assert ([x] + b)[..n + 1] == [x] + b[..n];
      assert FromBigEndian([x] + b) == 256 * FromBigEndian([x] + b[..n]) + b[n];
      Regroup(x, Power256(n), FromBigEndian(b[..n]));
    }
  }

  lemma Regroup(x: nat, p: nat, n: nat)
    ensures 256 * (x * p + n) == x * (256 * p) + 256 * n
  {
  }

  /** Byte strings are ordered by the first byte in which they differ, and a proper prefix
      comes first. */
  lemma {:induction false} LessByPosition(a: Bytes, b: Bytes)
    ensures Less(a, b) <==>
              exists i :: 0 <= i <= |a| && i < |b| && a[..i] == b[..i] && (i == |a| || a[i] < b[i])
    decreases |a|
  {
    if a == [] || b == [] {
      assert b != [] ==> a[..0] == b[..0];
    } else {
      LessByPosition(a[1..], b[1..]);
      if Less(a, b) && a[0] == b[0] {
        var i :| 0 <= i <= |a[1..]| && i < |b[1..]| && a[1..][..i] == b[1..][..i]
          && (i == |a[1..]| || a[1..][i] < b[1..][i]);
        assert a[..i + 1] == [a[0]] + a[1..][..i] && b[..i + 1] == [b[0]] + b[1..][..i];
      } else if Less(a, b) {
        assert a[..0] == b[..0];
      }
      forall i | 0 <= i <= |a| && i < |b| && a[..i] == b[..i] && (i == |a| || a[i] < b[i])
        ensures Less(a, b)
      {
        if i > 0 {
          assert a[0] == a[..i][0] == b[..i][0] == b[0];
          assert a[1..][..i - 1] == a[..i][1..] && b[1..][..i - 1] == b[..i][1..];
          assert a[1..][..i - 1] == b[1..][..i - 1];
        }
      }
    }
  }

  // RLP, Appendix B.

  /** A single byte below 128 is itself; up to 55 bytes follow a one-byte length; more follow
      the length of their length and the length, big-endian without leading zeros. */
  lemma StringLayout(s: Bytes)
    requires |s| < Power256(8)
    ensures var b := Rlp.Encode(Rlp.Str(s));
            && b != []
            && (|s| == 1 && s[0] < 0x80 ==> b == s)
            && (!(|s| == 1 && s[0] < 0x80) && |s| <= 55 ==> b[0] == 0x80 + |s| && b[1..] == s)
            && (|s| > 55 ==>
                  var k := (b[0] as int) - 0xb7;
                  && 1 <= k <= 8 && |b| == 1 + k + |s| && b[1] != 0
                  && FromBigEndian(b[1..1 + k]) == |s| && b[1 + k..] == s)
  {
    hide BigEndian, FromBigEndian, Power256;
    BigEndianLength(|s|, 8);
    BigEndianInverse(|s|);
    var size := BigEndian(|s|);
    if |s| > 55 {
      Parts(0xb7 + |size|, size, s);
    }
  }

  lemma Parts(tag: byte, size: Bytes, content: Bytes)
    ensures var b := [tag] + size + content;
            b[0] == tag && b[1..1 + |size|] == size && b[1 + |size|..] == content
            && (size != [] ==> b[1] == size[0])
  {
  }

  /** A list is the same over its items' encodings one after another, from 192 instead of 128. */
  lemma ListLayout(items: seq<Rlp.Item>, payload: Bytes)
    requires payload == Rlp.EncodeAll(items) && |payload| < Power256(8)
    ensures var b := Rlp.Encode(Rlp.List(items));
            && b != []
            && (|payload| <= 55 ==> b[0] == 0xc0 + |payload| && b[1..] == payload)
            && (|payload| > 55 ==>
                  var k := (b[0] as int) - 0xf7;
                  && 1 <= k <= 8 && |b| == 1 + k + |payload| && b[1] != 0
                  && FromBigEndian(b[1..1 + k]) == |payload| && b[1 + k..] == payload)
    ensures forall i :: 0 <= i < |items| ==>
              payload == Rlp.EncodeAll(items[..i]) + Rlp.Encode(items[i]) + Rlp.EncodeAll(items[i + 1..])
  {
    hide BigEndian, FromBigEndian, Power256, Rlp.EncodeAll;
    BigEndianLength(|payload|, 8);
    BigEndianInverse(|payload|);
    var size := BigEndian(|payload|);
    if |payload| > 55 {
      Parts(0xf7 + |size|, size, payload);
    }
    forall i | 0 <= i < |items|
      ensures payload == Rlp.EncodeAll(items[..i]) + Rlp.Encode(items[i]) + Rlp.EncodeAll(items[i + 1..])
    {
      ItemAt(items, i);
    }
  }

  lemma ItemAt(items: seq<Rlp.Item>, i: nat)
    requires i < |items|
    ensures Rlp.EncodeAll(items)
            == Rlp.EncodeAll(items[..i]) + Rlp.Encode(items[i]) + Rlp.EncodeAll(items[i + 1..])
  {
    hide Rlp.Encode;
    assert items == items[..i] + items[i..];
    Rlp.EncodeAllAppend(items[..i], items[i..]);
    assert items[i..][0] == items[i] && items[i..][1..] == items[i + 1..];
    assert Rlp.EncodeAll(items[i..]) == Rlp.Encode(items[i]) + Rlp.EncodeAll(items[i + 1..]);
  }

  // Hex prefix, Appendix C.

  lemma {:induction false} PackLength(x: Trie.Nibbles)
    requires |x| % 2 == 0
    ensures |Trie.Pack(x)| == |x| / 2
  {
    if x != [] {
      PackLength(x[2..]);
    }
  }

  lemma {:induction false} PackAt(x: Trie.Nibbles, i: nat)
    requires |x| % 2 == 0 && i < |x| / 2
    ensures |Trie.Pack(x)| == |x| / 2 && Trie.Pack(x)[i] == 16 * x[2 * i] as int + x[2 * i + 1]
  {
    PackLength(x);
    if i > 0 {
      var rest, j := x[2..], i - 1;
      PackAt(rest, j);
      assert Trie.Pack(x)[i] == Trie.Pack(rest)[j];
      assert rest[2 * j] == x[2 * j + 2] && rest[2 * j + 1] == x[2 * j + 3];
    }
  }

  /** The first byte holds the leaf flag, the parity and, for odd length, the first nibble;
      the other bytes hold two nibbles each. */
  lemma HexPrefixLayout(x: Trie.Nibbles, leaf: bool)
    ensures var b := Trie.HexPrefix(x, leaf);
            var o := |x| % 2;
            && |b| == |x| / 2 + 1
            && (o == 0 ==> b[0] == if leaf then 0x20 else 0x00)
            && (o == 1 ==> b[0] == (if leaf then 0x30 else 0x10) + (x[0] as int))
            && (forall i :: 0 <= i < |x| / 2 ==> b[i + 1] == 16 * x[2 * i + o] as int + x[2 * i + 1 + o])
  {
    hide Trie.Pack;
    Trie.HexPrefixInverse(x, leaf);
    var b, o := Trie.HexPrefix(x, leaf), |x| % 2;
    forall i | 0 <= i < |x| / 2
      ensures b[i + 1] == 16 * x[2 * i + o] as int + x[2 * i + 1 + o]
    {
      PackAt(x[o..], i);
      assert x[o..] == if o == 0 then x else x[1..];
    }
  }

  /** A key's nibbles are the halves of its bytes, high half first. */
  lemma {:induction false} UnpackAt(b: Bytes, i: nat)
    requires i < |b|
    ensures |Trie.Unpack(b)| == 2 * |b|
    ensures Trie.Unpack(b)[2 * i] == b[i] / 16 && Trie.Unpack(b)[2 * i + 1] == b[i] % 16
    decreases |b|
  {
    if |b| > 1 {
      UnpackAt(b[1..], if i > 0 then i - 1 else 0);
    } else {
      assert Trie.Unpack(b[1..]) == [];
    }
  }

  // Accounts.

  /** A slim account is four strings: the nonce and the balance as numbers, then the storage
      root and the code hash, each left empty when it is the empty trie's or the empty code's. */
  lemma SlimLayout(H: Hasher, a: AccountCodec.Account)
    ensures var x := Rlp.DecodeBytes(AccountCodec.EncodeAccount(H, a));
            && x.Some? && x.value.List? && |x.value.items| == 4
            && (forall i :: 0 <= i < 4 ==> x.value.items[i].Str?)
            && FromBigEndian(x.value.items[0].s) == a.nonce
            && FromBigEndian(x.value.items[1].s) == a.balance
            && x.value.items[2].s == (if a.root == H([0x80]) then [] else a.root)
            && x.value.items[3].s == (if a.codeHash == H([]) then [] else a.codeHash)
  {
    hide Rlp.Encode, Rlp.DecodeBytes, Rlp.Encodable, Power256, BigEndian, FromBigEndian;
    AccountCodec.SlimSize(H, a);
    Rlp.DecodeBytesEncoded(AccountCodec.SlimItem(H, a));
    BigEndianInverse(a.nonce);
    BigEndianInverse(a.balance);
  }

  /** A full account is the same four strings with nothing left empty. */
  lemma FullLayout(H: Hasher, a: AccountCodec.Account)
    ensures var x := Rlp.DecodeBytes(AccountCodec.EncodeFull(a));
            && x.Some? && x.value.List? && |x.value.items| == 4
            && (forall i :: 0 <= i < 4 ==> x.value.items[i].Str?)
            && FromBigEndian(x.value.items[0].s) == a.nonce
            && FromBigEndian(x.value.items[1].s) == a.balance
            && x.value.items[2].s == a.root
            && x.value.items[3].s == a.codeHash
  {
    hide Rlp.Encode, Rlp.DecodeBytes, Rlp.Encodable, Power256, BigEndian, FromBigEndian;
    AccountCodec.SlimSize(H, a);
    Rlp.DecodeBytesEncoded(AccountCodec.FullItem(a));
    BigEndianInverse(a.nonce);
    BigEndianInverse(a.balance);
  }

  /** A storage value is the RLP string of its big-endian bytes without leading zeros. */
  lemma ValueLayout(n: nat)
    requires 0 < n < Power256(32)
    ensures var x := Rlp.DecodeBytes(AccountCodec.EncodeValue(n));
            x.Some? && x.value.Str? && 0 < |x.value.s| <= 32 && x.value.s[0] != 0 && FromBigEndian(x.value.s) == n
  {
    hide Rlp.Encode, Rlp.DecodeBytes, Power256, BigEndian, FromBigEndian;
    BigEndianLength(n, 32);
    BigEndianInverse(n);
    AccountCodec.FieldSize(BigEndian(n));
    Rlp.DecodeBytesEncoded(Rlp.Str(BigEndian(n)));
  }

  // Records.

  /** A record is its type byte, the account's hash, for storage the slot's hash after it, for
      code the code's hash instead, the payload's length in eight bytes, and the payload. */
  lemma FrameLayout(e: Records.Entry)
    requires Records.WellFormed(e)
    ensures var b, n := Records.Frame(e), |e.payload|;
            && e.typ in {1, 2, 3} && |b| == (if e.typ == 2 then 73 else 41) + n && b[0] == e.typ
            && (e.typ == 1 ==> b[1..33] == e.account)
            && (e.typ == 2 ==> b[1..33] == e.account && b[33..65] == e.sub)
            && (e.typ == 3 ==> b[1..33] == e.sub)
            && FromBigEndian(b[|b| - n - 8..|b| - n]) == n && b[|b| - n..] == e.payload
  {
    hide Fixed, FromBigEndian, Power256;
    var b := Records.Frame(e);
    Records.LengthFits(|e.payload|);
    FixedInverse(|e.payload|, 8);
    var key, size := Records.Key(e), Fixed(|e.payload|, 8);
    Records.FrameParts(b, 0, e.typ, key, size, e.payload, []);
    assert e.typ == 2 ==> b[1..33] == key[..32] && b[33..65] == key[32..];
  }

  /** A stream is the eight bytes L2STATE1, its records one after another, and a zero byte. */
  lemma StreamLayout(es: seq<Records.Entry>)
    ensures var b := Records.Stream(es);
            && |b| >= 9 && b[..8] == [0x4c, 0x32, 0x53, 0x54, 0x41, 0x54, 0x45, 0x31] && b[|b| - 1] == 0
            && |b| == 9 + Sum(es, (e: Records.Entry) => |Records.Frame(e)|)
            && forall i :: 0 <= i < |es| ==>
              var at := 8 + Sum(es[..i], (e: Records.Entry) => |Records.Frame(e)|);
              at + |Records.Frame(es[i])| < |b| && b[at..at + |Records.Frame(es[i])|] == Records.Frame(es[i])
  {
    hide Records.Frame, Sum, Records.Frames;
    var size := (e: Records.Entry) => |Records.Frame(e)|;
    FramesSize(es);
    var b := Records.Stream(es);
    assert b[..8] == Records.MAGIC;
    forall i | 0 <= i < |es|
      ensures var at := 8 + Sum(es[..i], size);
              at + |Records.Frame(es[i])| < |b| && b[at..at + |Records.Frame(es[i])|] == Records.Frame(es[i])
    {
      FrameAt(es, i);
      FramesSize(es[..i]);
      var front, frame := Records.Frames(es[..i]), Records.Frame(es[i]);
      var rest := Records.Frames(es)[|front| + |frame|..];
      assert Records.Frames(es) == front + frame + rest;
      assert b == Records.MAGIC + front + frame + rest + [0];
    }
  }

  lemma {:induction false} FramesSize(es: seq<Records.Entry>)
    ensures |Records.Frames(es)| == Sum(es, (e: Records.Entry) => |Records.Frame(e)|)
  {
    hide Records.Frame;
    if es != [] {
      FramesSize(es[..|es| - 1]);
    }
  }

  lemma {:induction false} FrameAt(es: seq<Records.Entry>, i: nat)
    requires i < |es|
    ensures var front, frame := Records.Frames(es[..i]), Records.Frame(es[i]);
            |front| + |frame| <= |Records.Frames(es)| && Records.Frames(es)[..|front| + |frame|] == front + frame
  {
    hide Records.Frame;
    var n := |es| - 1;
    if i < n {
      FrameAt(es[..n], i);
      assert es[..n][..i] == es[..i];
      var m := |Records.Frames(es[..i])| + |Records.Frame(es[i])|;
      assert Records.Frames(es)[..m] == Records.Frames(es[..n])[..m];
    } else {
      assert es[..n] == es[..i];
    }
  }

  /** The wire counts are the numbers of records of each type and their payloads' lengths. */
  lemma {:induction false} CountsLayout(es: seq<Records.Entry>)
    ensures var c := Records.Counts(es);
            && c.accounts == Sum(es, (e: Records.Entry) => if e.typ == 1 then 1 else 0)
            && c.slots == Sum(es, (e: Records.Entry) => if e.typ == 2 then 1 else 0)
            && c.codes == Sum(es, (e: Records.Entry) => if e.typ == 3 then 1 else 0)
            && c.records == |es| && c.payload == Sum(es, (e: Records.Entry) => |e.payload|)
  {
    if es != [] {
      CountsLayout(es[..|es| - 1]);
    }
  }
}
