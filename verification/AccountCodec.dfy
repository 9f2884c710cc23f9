/** Account and storage-value encodings: the slim account of the record stream
    (internal/bundle/account.go), the full account of the state trie, and storage
    values (internal/migration/state_trie.go). */
module AccountCodec {
  import opened ByteStrings
  import opened Rlp

  type uint64 = n: nat | n < Power256(8)
  type uint256 = n: nat | n < Power256(32)

  datatype Account = Account(nonce: uint64, balance: uint256, root: Hash, codeHash: Hash)

  /** types.EmptyRootHash and types.EmptyCodeHash. */
  function EmptyRoot(H: Hasher): Hash { H([0x80]) }
  function EmptyCode(H: Hasher): Hash { H([]) }

  // Fields.

  function IntegerItem(n: nat): Item { Str(BigEndian(n)) }

  /** A canonical unsigned integer of at most k bytes. */
  function ReadInteger(x: Item, k: nat): Option<nat> {
    if x.Str? && |x.s| <= k && (x.s == [] || x.s[0] != 0) then Some(FromBigEndian(x.s)) else None
  }

  lemma IntegerInverse(n: nat, k: nat)
    requires n < Power256(k)
    ensures ReadInteger(IntegerItem(n), k) == Some(n)
  {
    BigEndianInverse(n);
    BigEndianLength(n, k);
  }

  lemma IntegerCanonical(x: Item, k: nat)
    requires ReadInteger(x, k).Some?
    ensures IntegerItem(ReadInteger(x, k).value) == x && ReadInteger(x, k).value < Power256(k)
  {
    FromBigEndianInverse(x.s);
    BigEndianLength(FromBigEndian(x.s), k);
  }

  /** A hash field that the slim form leaves empty when it holds the default. */
  function HashItem(h: Hash, default: Hash): Item { Str(if h == default then [] else h) }

  function ReadHash(x: Item, default: Hash): Option<Hash> {
    if x.Str? && x.s == [] then Some(default)
    else if x.Str? && |x.s| == 32 && x.s != default then Some(x.s)
    else None
  }

  // The slim form.

  function SlimItem(H: Hasher, a: Account): Item {
    List([IntegerItem(a.nonce), IntegerItem(a.balance), HashItem(a.root, EmptyRoot(H)),
        HashItem(a.codeHash, EmptyCode(H))])
  }

  /** EncodeAccount. */
  function EncodeAccount(H: Hasher, a: Account): Bytes { Encode(SlimItem(H, a)) }

  function ReadSlim(H: Hasher, x: Item): Option<Account> {
    if x.Str? || |x.items| != 4 then None
    else
      var nonce, balance := ReadInteger(x.items[0], 8), ReadInteger(x.items[1], 32);
      var root, code := ReadHash(x.items[2], EmptyRoot(H)), ReadHash(x.items[3], EmptyCode(H));
      if nonce.None? || balance.None? || root.None? || code.None? then None
      else
        IntegerCanonical(x.items[0], 8);
        IntegerCanonical(x.items[1], 32);
        Some(Account(nonce.value, balance.value, root.value, code.value))
  }

  /** DecodeAccount; the program also returns the account's full form. */
  function DecodeAccount(H: Hasher, b: Bytes): Option<Account> {
    var x := DecodeBytes(b);
    if x.None? then None else ReadSlim(H, x.value)
  }

  // The full form.

  function FullItem(a: Account): Item {
    List([IntegerItem(a.nonce), IntegerItem(a.balance), Str(a.root), Str(a.codeHash)])
  }

  function EncodeFull(a: Account): Bytes { Encode(FullItem(a)) }

  function ReadFull(x: Item): Option<Account> {
    if x.Str? || |x.items| != 4 then None
    else
      var nonce, balance := ReadInteger(x.items[0], 8), ReadInteger(x.items[1], 32);
      var root, code := x.items[2], x.items[3];
      if nonce.None? || balance.None? || root.List? || |root.s| != 32 || code.List? || |code.s| != 32 then None
      else
        IntegerCanonical(x.items[0], 8);
        IntegerCanonical(x.items[1], 32);
        Some(Account(nonce.value, balance.value, root.s, code.s))
  }

  /** decodeFullAccount. */
  function DecodeFull(b: Bytes): Option<Account> {
    var x := DecodeBytes(b);
    if x.None? then None else ReadFull(x.value)
  }

  /** An account trie's leaf; an absent account is the empty account. */
  function ReadLeaf(H: Hasher, leaves: map<Bytes, Bytes>, h: Bytes): Option<Account> {
    if h !in leaves || leaves[h] == [] then Some(Account(0, 0, EmptyRoot(H), EmptyCode(H))) else DecodeFull(leaves[h])
  }

  // Sizes.

  lemma StrSize(s: Bytes)
    requires |s| <= 55
    ensures |Encode(Str(s))| == if |s| == 1 && s[0] < 0x80 then 1 else 1 + |s|
  {
  }

  lemma IntegerSize(n: nat, k: nat)
    requires n < Power256(k) && k <= 32
    ensures 1 <= |Encode(IntegerItem(n))| <= 1 + k && Encodable(IntegerItem(n))
  {
    hide BigEndian, Encode, Power256;
    BigEndianLength(n, k);
    StrSize(BigEndian(n));
    assert Power256(8) > 55 by { BigEndianLength(55, 8); BigEndianLength(55, 1); OneByte(); }
  }

  lemma OneByte()
    ensures 55 < Power256(1) && 255 < Power256(8)
  {
  }

  lemma {:induction false} FourItems(a: Item, b: Item, c: Item, d: Item)
    ensures EncodeAll([a, b, c, d]) == Encode(a) + Encode(b) + Encode(c) + Encode(d)
  {
    hide Encode;
    assert EncodeAll([d]) == Encode(d) + EncodeAll([]);
    assert EncodeAll([c, d]) == Encode(c) + EncodeAll([d]) by { assert [c, d][1..] == [d]; }
    assert EncodeAll([b, c, d]) == Encode(b) + EncodeAll([c, d]) by { assert [b, c, d][1..] == [c, d]; }
    assert EncodeAll([a, b, c, d]) == Encode(a) + EncodeAll([b, c, d]) by { assert [a, b, c, d][1..] == [b, c, d]; }
  }

  /** A list of two integers and two strings of at most 32 bytes is at most 110 bytes. */
  lemma RecordSize(nonce: uint64, balance: uint256, root: Bytes, code: Bytes)
    requires |root| <= 32 && |code| <= 32
    ensures var x := List([IntegerItem(nonce), IntegerItem(balance), Str(root), Str(code)]);
            && Encodable(x) && |Encode(x)| <= 110
            && |Encode(x)| == |Header(0xc0, |EncodeAll(x.items)|)| + |EncodeAll(x.items)|
            && |EncodeAll(x.items)| <= 108
            && |EncodeAll(x.items)| == |Encode(IntegerItem(nonce))| + |Encode(IntegerItem(balance))|
                                       + |Encode(Str(root))| + |Encode(Str(code))|
  {
    hide BigEndian, EncodeAll, Header, Power256, IntegerItem;
    IntegerSize(nonce, 8);
    IntegerSize(balance, 32);
    FieldSize(root);
    FieldSize(code);
    FourItems(IntegerItem(nonce), IntegerItem(balance), Str(root), Str(code));
    OneByte();
    HeaderSize(0xc0, |EncodeAll([IntegerItem(nonce), IntegerItem(balance), Str(root), Str(code)])|);
  }

  lemma FieldSize(s: Bytes)
    requires |s| <= 32
    ensures |Encode(Str(s))| <= 33 && Encodable(Str(s)) && (|s| == 32 ==> |Encode(Str(s))| == 33)
            && (s == [] ==> |Encode(Str(s))| == 1)
  {
    hide Power256;
    StrSize(s);
    OneByte();
  }

  lemma HeaderGrows(n: nat, m: nat)
    requires n <= m <= 108
    ensures |Header(0xc0, n)| <= |Header(0xc0, m)|
  {
    BigEndianLength(n, 1);
    BigEndianLength(m, 1);
    BigEndianLength(m, 0);
    OneByte();
  }

  /** A slim account is at most 110 bytes, and never longer than the full form. */
  lemma SlimSize(H: Hasher, a: Account)
    ensures Encodable(SlimItem(H, a)) && Encodable(FullItem(a))
    ensures |EncodeAccount(H, a)| <= 110
    ensures |EncodeAccount(H, a)| <= |EncodeFull(a)|
  {
    hide Encode, EncodeAll, Encodable, Header, Power256, IntegerItem;
    var root, code := HashItem(a.root, EmptyRoot(H)).s, HashItem(a.codeHash, EmptyCode(H)).s;
    RecordSize(a.nonce, a.balance, root, code);
    RecordSize(a.nonce, a.balance, a.root, a.codeHash);
    FieldSize(root);
    FieldSize(code);
    FieldSize(a.root);
    FieldSize(a.codeHash);
    HeaderGrows(|EncodeAll(SlimItem(H, a).items)|, |EncodeAll(FullItem(a).items)|);
  }

  // Round trips.

  /** Decoding a slim account inverts encoding it. */
  lemma SlimRoundTrip(H: Hasher, a: Account)
    ensures DecodeAccount(H, EncodeAccount(H, a)) == Some(a)
  {
    hide Encode, DecodeBytes, Encodable, Power256, IntegerItem, ReadInteger;
    SlimSize(H, a);
    DecodeBytesEncoded(SlimItem(H, a));
    IntegerInverse(a.nonce, 8);
    IntegerInverse(a.balance, 32);
  }

  /** An accepted slim payload has no other spelling. */
  lemma SlimCanonical(H: Hasher, b: Bytes)
    requires DecodeAccount(H, b).Some?
    ensures EncodeAccount(H, DecodeAccount(H, b).value) == b
  {
    hide Encode, DecodeBytes, Encodable, Power256, IntegerItem, ReadInteger;
    DecodeBytesCanonical(b);
    var x := DecodeBytes(b).value;
    IntegerCanonical(x.items[0], 8);
    IntegerCanonical(x.items[1], 32);
    assert x.items == [x.items[0], x.items[1], x.items[2], x.items[3]];
  }

  lemma FullRoundTrip(a: Account)
    ensures DecodeFull(EncodeFull(a)) == Some(a)
  {
    hide Encode, DecodeBytes, Encodable, Power256, IntegerItem, ReadInteger;
    SlimSize(_ => seq(32, _ => 0), a);
    DecodeBytesEncoded(FullItem(a));
    IntegerInverse(a.nonce, 8);
    IntegerInverse(a.balance, 32);
  }

  lemma FullCanonical(b: Bytes)
    requires DecodeFull(b).Some?
    ensures EncodeFull(DecodeFull(b).value) == b
  {
    hide Encode, DecodeBytes, Encodable, Power256, IntegerItem, ReadInteger;
    DecodeBytesCanonical(b);
    var x := DecodeBytes(b).value;
    IntegerCanonical(x.items[0], 8);
    IntegerCanonical(x.items[1], 32);
    assert x.items == [x.items[0], x.items[1], x.items[2], x.items[3]];
  }

  // Storage values.

  /** validateStorageRLP. */
  predicate ValidStorage(b: Bytes) {
    var s := SplitItem(b);
    && s.Some? && s.value.kind != ListKind && s.value.rest == []
    && s.value.content != [] && |s.value.content| <= 32 && s.value.content[0] != 0
  }

  function EncodeValue(n: nat): Bytes { Encode(IntegerItem(n)) }

  /** decodeOVMValue: no leaf is zero. */
  function DecodeValue(b: Bytes): Option<nat> {
    if b == [] then Some(0)
    else if !ValidStorage(b) then None
    else Some(FromBigEndian(SplitItem(b).value.content))
  }

  /** The accepted storage values are exactly the encodings of the nonzero words. */
  lemma StorageCanonical(b: Bytes)
    requires ValidStorage(b)
    ensures var n := DecodeValue(b).value; 0 < n < Power256(32) && EncodeValue(n) == b && |b| <= 33
  {
    hide SplitItem, FromBigEndian, BigEndian, Encode, Encodable, Power256;
    SplitCanonical(b);
    var content := SplitItem(b).value.content;
    FromBigEndianInverse(content);
    var n := FromBigEndian(content);
    BigEndianLength(n, 32);
    assert n > 0 by { BigEndianLength(n, 0); }
    SplitIsEncoded(b);
    FieldSize(content);
  }

  lemma SplitIsEncoded(b: Bytes)
    requires SplitItem(b).Some? && SplitItem(b).value.kind != ListKind && SplitItem(b).value.rest == []
    ensures b == Encode(Str(SplitItem(b).value.content))
  {
    hide SplitItem, Header, Power256;
    SplitCanonical(b);
    var s := SplitItem(b).value;
    assert s.content + [] == s.content;
  }

  lemma StorageRoundTrip(n: nat)
    requires 0 < n < Power256(32)
    ensures ValidStorage(EncodeValue(n)) && DecodeValue(EncodeValue(n)) == Some(n)
  {
    hide BigEndian, FromBigEndian, Power256, SplitItem, Header;
    BigEndianLength(n, 32);
    BigEndianInverse(n);
    SplitStr(BigEndian(n));
  }

  lemma SplitStr(s: Bytes)
    requires 0 < |s| <= 32
    ensures var r := SplitItem(Encode(Str(s)));
            r.Some? && r.value.kind != ListKind && r.value.content == s && r.value.rest == []
    ensures Encode(Str(s)) != []
  {
    hide Power256;
    if |s| == 1 && s[0] < 0x80 {
      assert s[..1] == s;
    } else {
      OneByte();
      SplitEncoded(StringKind, s, []);
      assert Encode(Str(s)) + [] == Encode(Str(s));
    }
  }
}
