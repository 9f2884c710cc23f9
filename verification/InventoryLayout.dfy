/** The database keys and fixed values of an artifact, spelled as the text and numbers they
    stand for. */
module InventoryLayout {
  import opened ByteStrings
  import opened KeyValue
  import opened Inventory
  import opened InventoryExact
  import Rlp

  predicate Ascii(s: string) { forall i :: 0 <= i < |s| ==> s[i] as int < 128 }

  /** A text's bytes. */
  function Text(s: string): (b: Bytes)
    requires Ascii(s)
    ensures |b| == |s| && forall i :: 0 <= i < |s| ==> b[i] == s[i] as int
  {
    seq(|s|, i requires 0 <= i < |s| => s[i] as int)
  }

  /** Under which keys the entries of the state lie. */
  lemma StateKeys(v: Visit, code: Hash, account: Hash, slot: Hash, slim: Bytes, value: Bytes)
    ensures NodeKey(HashScheme, v) == v.hash
    ensures NodeKey(PathScheme, v) == if v.owner.None? then Text("A") + v.path else Text("O") + v.owner.value + v.path
    ensures CodeKey(code) == Text("c") + code
    ensures FlatRecord(AccountCall(account, slim)) == Record.Record(Text("a") + account, slim)
    ensures FlatRecord(StorageCall(account, slot, value)) == Record.Record(Text("o") + account + slot, value)
  {
    hide Text;
    StateLetters();
  }

  lemma StateLetters()
    ensures Text("A") == [ACCOUNT_NODE] && Text("O") == [STORAGE_NODE] && Text("c") == [CODE_PREFIX]
    ensures Text("a") == [FLAT_ACCOUNT] && Text("o") == [FLAT_STORAGE]
  {
  }

  /** The head's entries and no others: the header under its number and hash, the number under
      the hash, the canonical hash under the number, and the two head markers; a converted
      state also has a body. */
  lemma HeadEntries(number: nat, n: Bytes, hash: Hash, header: Bytes, body: Option<Bytes>)
    requires |n| == 8 && FromBigEndian(n) == number
    ensures var head := HeadMetadata(number, hash, header, body);
            && head.Keys == {Text("h") + n + hash, Text("H") + hash, Text("h") + n + Text("n"), Text("LastBlock"),
                             Text("LastHeader")}
                            + (if body.Some? then {Text("b") + n + hash} else {})
            && head[Text("h") + n + hash] == header
            && head[Text("H") + hash] == n
            && head[Text("h") + n + Text("n")] == hash
            && head[Text("LastBlock")] == hash
            && head[Text("LastHeader")] == hash
            && (body.Some? ==> head[Text("b") + n + hash] == body.value)
  {
    hide Fixed, FromBigEndian;
    FromFixedInverse(n);
    Letters();
    assert Text("LastBlock") == [76, 97, 115, 116, 66, 108, 111, 99, 107];
    assert Text("LastHeader") == [76, 97, 115, 116, 72, 101, 97, 100, 101, 114];
    HeadKeysDiffer(n, hash);
  }

  lemma Letters()
    ensures Text("h") == [104] && Text("H") == [72] && Text("n") == [110] && Text("b") == [98]
  {
  }

  lemma HeadKeysDiffer(n: Bytes, hash: Hash)
    requires |n| == 8
    ensures |[104] + n + hash| == 41 && |[72] + hash| == 33 && |[104] + n + [110]| == 10 && |[98] + n + hash| == 41
    ensures ([104] + n + hash)[0] == 104 && ([98] + n + hash)[0] == 98 && ([104] + n + [110])[0] == 104
  {
  }

  /** The path scheme's markers: the snapshot's root, a finished generator (its six fields in
      RLP: not wiping, done, no marker, three zero counters), state ID zero, and a finished sync. */
  lemma PathEntries(root: Hash)
    ensures var p := PathMetadata(root);
            && p.Keys == {Text("SnapshotRoot"), Text("SnapshotGenerator"), Text("LastStateID"),
                          Text("SnapSyncStatus")}
            && p[Text("SnapshotRoot")] == root
            && p[Text("SnapshotGenerator")]
               == Rlp.Encode(Rlp.List([Rlp.Str([]), Rlp.Str([1]), Rlp.Str([]), Rlp.Str([]), Rlp.Str([]), Rlp.Str([])]))
            && |p[Text("LastStateID")]| == 8 && FromBigEndian(p[Text("LastStateID")]) == 0
            && p[Text("SnapSyncStatus")] == [2]
  {
    hide FromBigEndian, Rlp.Encode;
    Markers();
    Generator();
    assert PathMetadata(root)[STATE_ID] == [0, 0, 0, 0, 0, 0, 0, 0];
    ZeroBytes(8);
    assert seq(8, _ => 0 as byte) == [0, 0, 0, 0, 0, 0, 0, 0];
  }

  lemma Markers()
    ensures Text("SnapshotRoot") == SNAPSHOT_ROOT
    ensures Text("SnapshotGenerator") == SNAPSHOT_GENERATOR
    ensures Text("LastStateID") == STATE_ID
    ensures Text("SnapSyncStatus") == SYNC_STATUS
  {
  }

  lemma Generator()
    ensures Rlp.Encode(Rlp.List([Rlp.Str([]), Rlp.Str([1]), Rlp.Str([]), Rlp.Str([]), Rlp.Str([]), Rlp.Str([])]))
            == [0xc6, 0x80, 0x01, 0x80, 0x80, 0x80, 0x80]
  {
    var e, one := Rlp.Str([]), Rlp.Str([1]);
    assert Rlp.Encode(e) == [0x80] && Rlp.Encode(one) == [1];
    Zeros(e, 1);
    Zeros(e, 4);
    var tail := [e, e, e, e];
    assert tail == seq(4, _ => e);
    assert Rlp.EncodeAll([one] + tail) == [1] + Rlp.EncodeAll(tail) by { assert ([one] + tail)[1..] == tail; }
    var items := [e] + ([one] + tail);
    assert Rlp.EncodeAll(items) == [0x80] + Rlp.EncodeAll([one] + tail) by { assert items[1..] == [one] + tail; }
    assert items == [e, one, e, e, e, e];
    assert Rlp.EncodeAll(tail) == [0x80, 0x80, 0x80, 0x80];
    assert Rlp.EncodeAll(items) == [0x80, 0x01, 0x80, 0x80, 0x80, 0x80];
  }

  lemma {:induction false} Zeros(e: Rlp.Item, n: nat)
    requires e == Rlp.Str([])
    ensures Rlp.EncodeAll(seq(n, _ => e)) == seq(n, _ => 0x80)
  {
    if n > 0 {
      var s := seq(n, _ => e);
      assert s[1..] == seq(n - 1, _ => e);
      Zeros(e, n - 1);
      assert Rlp.Encode(e) == [0x80];
    }
  }

  lemma {:induction false} ZeroBytes(n: nat)
    ensures FromBigEndian(seq(n, _ => 0)) == 0
  {
    if n > 0 {
      assert seq(n, _ => 0 as byte)[..n - 1] == seq(n - 1, _ => 0 as byte);
      ZeroBytes(n - 1);
    }
  }

  /** The classes of the path scheme's entries, each by its own key shape, in whatever order
      they are tried. */
  lemma PathClasses(H: Hasher, k: Bytes, value: Bytes)
    ensures var kind := Classify(H, PathScheme, k, value);
            && (kind == Some(TrieNode) <==>
                  && k != [] && ((k[0] == 'A' as int && |k| <= 65 && Nibbled(k, 1))
                                 || (k[0] == 'O' as int && 33 <= |k| <= 97 && Nibbled(k, 33))))
            && (kind == Some(Code) <==> |k| == 33 && k[0] == 'c' as int && value != [])
            && (kind == Some(FlatAccount) <==> |k| == 33 && k[0] == 'a' as int)
            && (kind == Some(FlatStorage) <==> |k| == 65 && k[0] == 'o' as int)
            && (kind == Some(Metadata) <==>
                  k in {Text("SnapshotRoot"), Text("SnapshotGenerator"), Text("LastStateID"), Text("SnapSyncStatus")})
  {
    hide Text;
    Markers();
    if k != [] {
      NibbledTail(k, 1);
      if |k| >= 33 {
        NibbledTail(k, 33);
      }
    }
  }

  /** From a position on, every byte of a key is a nibble. */
  predicate Nibbled(k: Bytes, from: nat) { forall i :: from <= i < |k| ==> k[i] < 16 }

  lemma NibbledTail(k: Bytes, from: nat)
    requires from <= |k|
    ensures IsHexPath(k[from..]) <==> |k| <= from + 64 && Nibbled(k, from)
  {
    if IsHexPath(k[from..]) {
      forall i | from <= i < |k|
        ensures k[i] < 16
      {
        assert k[from..][i - from] == k[i];
      }
    }
  }

  /** And of the hash scheme's. */
  lemma HashClasses(H: Hasher, k: Bytes, value: Bytes)
    ensures var kind := Classify(H, HashScheme, k, value);
            && (kind == Some(TrieNode) <==> |k| == 32 && H(value) == k)
            && (kind == Some(Code) <==> |k| == 33 && k[0] == 'c' as int && value != [])
            && (kind.Some? ==> kind.value.TrieNode? || kind.value.Code?)
  {
  }
}
