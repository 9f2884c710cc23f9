/** Recognising the contract's fixed storage slots and its two strings, and the whole
    conversion with it: recognizeMetadata and recognizeString in
    internal/migration/ovm_transform.go. */
module OvmMetadata {
  import opened ByteStrings
  import opened KeyValue
  import opened AccountCodec
  import opened OvmBalances
  import opened OvmConversion

  /** The 32-byte form of a slot number. */
  function Slot(n: nat): Bytes { Fixed(n, 32) }

  /** storageValue; None is a leaf that cannot be read. */
  function StorageValue(H: Hasher, storage: Database, slot: Bytes): Option<nat> {
    if H(slot) in storage then DecodeValue(storage[H(slot)]) else Some(0)
  }

  // Strings.

  /** A string's bytes in one word: up to 31 bytes, zero padding, and twice the length. */
  function ShortWord(s: Bytes): Bytes
    requires |s| <= 31
  {
    s + seq(31 - |s|, _ => 0) + [2 * |s|]
  }

  /** The chunks of a long string: consecutive slots from the hash of its slot. */
  function ChunkSlot(H: Hasher, slot: nat, n: nat): Bytes { Fixed((FromBigEndian(H(Slot(slot))) + n) % WORD, 32) }

  function Chunks(H: Hasher, slot: nat, n: nat, known: Database): Database
    requires slot < 256
  {
    if n == 0 then known else Chunks(H, slot, n - 1, known)[H(ChunkSlot(H, slot, n - 1)) := [slot]]
  }

  datatype Layout = Short(s: Bytes) | Long(chunks: nat) | Malformed

  /** How a string slot's word is laid out. */
  function LayoutOf(v: nat): Layout {
    var word := Fixed(v, 32);
    if v % 2 == 0 then
      var length := v % 256 / 2;
      if length > 31 || exists i :: length <= i < 31 && word[i] != 0 then Malformed else Short(word[..length])
    else
      var length := v / 2;
      if length >= Power256(8) || length < 32 then Malformed else Long((length - 1) / 32 + 1)
  }

  lemma LastByte(v: nat)
    ensures Fixed(v, 32)[31] == v % 256
  {
    hide Fixed;
    assert Fixed(v, 32) == Fixed(v / 256, 31) + [v % 256] by { FixedStep(v, 32); }
  }

  lemma FixedStep(v: nat, k: nat)
    requires k > 0
    ensures Fixed(v, k) == Fixed(v / 256, k - 1) + [v % 256]
  {
  }

  /** Every string of at most 31 bytes is recognised from the word that holds it. */
  lemma ShortRecognised(s: Bytes)
    requires |s| <= 31
    ensures LayoutOf(FromBigEndian(ShortWord(s))) == Short(s)
  {
    hide Fixed, FromBigEndian;
    var word := ShortWord(s);
    var v := FromBigEndian(word);
    FromFixedInverse(word);
    LastByte(v);
    assert word[31] == 2 * |s| && word[..|s|] == s;
    assert v % 256 == 2 * |s|;
    assert v % 2 == 0 by { EvenByte(v); }
    assert forall i :: |s| <= i < 31 ==> word[i] == 0;
  }

  lemma EvenByte(v: nat)
    ensures v % 2 == v % 256 % 2
  {
  }

  /** And a word recognised as short holds exactly that string. */
  lemma ShortExact(v: nat)
    requires v < WORD && LayoutOf(v).Short?
    ensures |LayoutOf(v).s| <= 31 && Fixed(v, 32) == ShortWord(LayoutOf(v).s)
  {
    hide Fixed, Power256;
    var word := Fixed(v, 32);
    var length := v % 256 / 2;
    LastByte(v);
    EvenByte(v);
    assert word[31] == 2 * length;
    assert word == word[..length] + word[length..31] + [word[31]];
    assert word[length..31] == seq(31 - length, _ => 0);
  }

  /** Every string of 32 bytes or more is recognised from its length word, with as many chunks
      as it takes words. */
  lemma LongRecognised(length: nat)
    requires 32 <= length < Power256(8)
    ensures LayoutOf(2 * length + 1).Long?
    ensures var n := LayoutOf(2 * length + 1).chunks; 32 * (n - 1) < length <= 32 * n
  {
    hide Fixed, Power256;
  }

  /** A word recognised as long is an odd one, twice the length and one. */
  lemma LongExact(v: nat)
    requires LayoutOf(v).Long?
    ensures exists length: nat :: 32 <= length < Power256(8) && v == 2 * length + 1
    ensures 32 * (LayoutOf(v).chunks - 1) < v / 2 <= 32 * LayoutOf(v).chunks
  {
    hide Fixed, Power256;
    assert v == 2 * (v / 2) + 1;
  }

  /** recognizeString: the chunks of a long string become known. */
  method RecognizeString(H: Hasher, storage: Database, slot: nat, known: Database) returns (r: Option<Database>)
    requires slot < 256
    ensures r == WithString(H, storage, slot, known)
  {
    hide Fixed, DecodeValue, Power256, FromBigEndian, ChunkSlot;
    var v := StorageValue(H, storage, Slot(slot));
    if v.None? {
      return None;
    }
    var word := Fixed(v.value, 32);
    if v.value % 2 == 0 {
      var length := v.value % 256 / 2;
      if length > 31 {
        return None;
      }
      for i := length to 31
        invariant forall j :: length <= j < i ==> word[j] == 0
      {
        if word[i] != 0 {
          return None;
        }
      }
      return Some(known);
    }
    var length := v.value / 2;
    if length >= Power256(8) || length < 32 {
      return None;
    }
    var next := known;
    for n := 0 to (length - 1) / 32 + 1
      invariant next == Chunks(H, slot, n, known)
    {
      next := next[H(ChunkSlot(H, slot, n)) := [slot]];
    }
    r := Some(next);
  }

  function WithString(H: Hasher, storage: Database, slot: nat, known: Database): Option<Database>
    requires slot < 256
  {
    var v := StorageValue(H, storage, Slot(slot));
    if v.None? then None
    else
      match LayoutOf(v.value)
      case Short(_) => Some(known)
      case Long(n) => Some(Chunks(H, slot, n, known))
      case Malformed => None
  }

  // The fixed slots.

  /** The known slots after the first n slot numbers; None is an error. */
  function Known(H: Hasher, storage: Database, n: nat): Option<Database>
    requires n <= 7
  {
    if n == 0 then Some(map[])
    else
      var before := Known(H, storage, n - 1);
      if before.None? then None
      else if n - 1 < 2 then
        if StorageValue(H, storage, Slot(n - 1)) == Some(0) then before else None
      else
        var next := before.value[H(Slot(n - 1)) := [n - 1]];
        if n - 1 == 3 || n - 1 == 4 then WithString(H, storage, n - 1, next) else Some(next)
  }

  /** recognizeMetadata. */
  method RecognizeMetadata(H: Hasher, storage: Database) returns (known: Option<Database>)
    ensures known == Known(H, storage, 7)
  {
    hide StorageValue, WithString, Slot;
    var k: Database := map[];
    for n := 0 to 7
      invariant Known(H, storage, n) == Some(k)
    {
      if n < 2 {
        if StorageValue(H, storage, Slot(n)) != Some(0) {
          Unknown(H, storage, n + 1);
          return None;
        }
      } else {
        k := k[H(Slot(n)) := [n]];
        if n == 3 || n == 4 {
          var r := RecognizeString(H, storage, n, k);
          if r.None? {
            Unknown(H, storage, n + 1);
            return None;
          }
          k := r.value;
        }
      }
    }
    known := Some(k);
  }

  lemma {:induction false} Unknown(H: Hasher, storage: Database, n: nat)
    requires n <= 7 && Known(H, storage, n).None?
    ensures Known(H, storage, 7).None?
    decreases 7 - n
  {
    hide StorageValue, WithString, Slot;
    if n < 7 {
      Unknown(H, storage, n + 1);
    }
  }

  lemma {:induction false} ChunksKeep(H: Hasher, slot: nat, n: nat, known: Database, k: Bytes)
    requires slot < 256 && k in known
    ensures k in Chunks(H, slot, n, known)
  {
    hide ChunkSlot;
    if n > 0 {
      ChunksKeep(H, slot, n - 1, known, k);
    }
  }

  /** The supply slot stays known. */
  lemma {:induction false} SupplyKnown(H: Hasher, storage: Database, n: nat)
    requires 3 <= n <= 7 && Known(H, storage, n).Some?
    ensures H(Slot(2)) in Known(H, storage, n).value
  {
    hide StorageValue, Slot, Chunks, LayoutOf;
    if n > 3 {
      SupplyKnown(H, storage, n - 1);
      var next := Known(H, storage, n - 1).value[H(Slot(n - 1)) := [n - 1]];
      if n - 1 == 3 || n - 1 == 4 {
        var v := StorageValue(H, storage, Slot(n - 1));
        if LayoutOf(v.value).Long? {
          ChunksKeep(H, n - 1, LayoutOf(v.value).chunks, next, H(Slot(2)));
        }
      }
    }
  }

  /** The word of a string slot, when it can be read and is well formed. */
  predicate HoldsString(H: Hasher, storage: Database, slot: nat) {
    var v := StorageValue(H, storage, Slot(slot));
    v.Some? && !LayoutOf(v.value).Malformed?
  }

  /** A slot that holds a piece of a long string. */
  predicate IsChunk(H: Hasher, storage: Database, slot: nat, k: Bytes) {
    var v := StorageValue(H, storage, Slot(slot));
    && v.Some? && LayoutOf(v.value).Long?
    && exists n :: 0 <= n < LayoutOf(v.value).chunks && k == H(ChunkSlot(H, slot, n))
  }

  lemma {:induction false} ChunksHold(H: Hasher, slot: nat, n: nat, known: Database, k: Bytes)
    requires slot < 256
    ensures k in Chunks(H, slot, n, known) <==>
              k in known || exists m :: 0 <= m < n && k == H(ChunkSlot(H, slot, m))
  {
    hide ChunkSlot;
    if n > 0 {
      ChunksHold(H, slot, n - 1, known, k);
    }
  }

  lemma StringHolds(H: Hasher, storage: Database, slot: nat, known: Database, k: Bytes)
    requires slot < 256
    ensures WithString(H, storage, slot, known).Some? <==> HoldsString(H, storage, slot)
    ensures HoldsString(H, storage, slot) ==>
              (k in WithString(H, storage, slot, known).value <==> k in known || IsChunk(H, storage, slot, k))
  {
    hide ChunkSlot, Chunks, StorageValue, LayoutOf, Slot;
    var v := StorageValue(H, storage, Slot(slot));
    if v.Some? && LayoutOf(v.value).Long? {
      ChunksHold(H, slot, LayoutOf(v.value).chunks, known, k);
    }
  }

  /** The metadata is recognised exactly when slots 0 and 1 are zero and the strings in slots
      3 and 4 (name and symbol) are well formed; then exactly slots 2 to 6 and the pieces of
      those two strings are known. */
  lemma KnownMeans(H: Hasher, storage: Database, k: Bytes)
    ensures Known(H, storage, 7).Some? <==>
              && StorageValue(H, storage, Slot(0)) == Some(0) && StorageValue(H, storage, Slot(1)) == Some(0)
              && HoldsString(H, storage, 3) && HoldsString(H, storage, 4)
    ensures Known(H, storage, 7).Some? ==>
              (k in Known(H, storage, 7).value <==>
                 || k in {H(Slot(2)), H(Slot(3)), H(Slot(4)), H(Slot(5)), H(Slot(6))}
                 || IsChunk(H, storage, 3, k) || IsChunk(H, storage, 4, k))
  {
    hide StorageValue, WithString, Slot, HoldsString, IsChunk, Known;
    KnownStart(H, storage);
    if Known(H, storage, 3).Some? {
      var three := Known(H, storage, 3).value[H(Slot(3)) := [3]];
      KnownStep(H, storage, 3);
      StringHolds(H, storage, 3, three, k);
      KnownStep(H, storage, 4);
      if Known(H, storage, 4).Some? {
        StringHolds(H, storage, 4, Known(H, storage, 4).value[H(Slot(4)) := [4]], k);
      }
    } else {
      KnownStep(H, storage, 3);
      KnownStep(H, storage, 4);
    }
    KnownStep(H, storage, 5);
    KnownStep(H, storage, 6);
  }

  lemma KnownStart(H: Hasher, storage: Database)
    ensures Known(H, storage, 3).Some? <==>
              StorageValue(H, storage, Slot(0)) == Some(0) && StorageValue(H, storage, Slot(1)) == Some(0)
    ensures Known(H, storage, 3).Some? ==> Known(H, storage, 3).value.Keys == {H(Slot(2))}
  {
    hide StorageValue, WithString, Slot;
    assert Known(H, storage, 1) == if StorageValue(H, storage, Slot(0)) == Some(0) then Some(map[]) else None;
    assert Known(H, storage, 2)
           == if Known(H, storage, 1).None? || StorageValue(H, storage, Slot(1)) != Some(0) then None
              else Known(H, storage, 1);
  }

  lemma KnownStep(H: Hasher, storage: Database, n: nat)
    requires 2 <= n < 7
    ensures var before := Known(H, storage, n);
            Known(H, storage, n + 1)
            == if before.None? then None
               else if n == 3 || n == 4 then WithString(H, storage, n, before.value[H(Slot(n)) := [n]])
               else Some(before.value[H(Slot(n)) := [n]])
  {
    hide StorageValue, WithString, Slot;
  }

  /** A slot number's word, and the consecutive words of a long string: its first is the hash
      of the string's slot. */
  lemma SlotWords(H: Hasher, slot: nat, n: nat)
    requires slot < 256
    ensures Slot(slot) == seq(31, _ => 0) + [slot]
    ensures FromBigEndian(ChunkSlot(H, slot, n)) == (FromBigEndian(H(Slot(slot))) + n) % Power256(32)
  {
    hide Fixed, FromBigEndian, Power256;
    FixedStep(slot, 32);
    FixedZero(31);
    FixedInverse((FromBigEndian(H(Slot(slot))) + n) % WORD, 32);
  }

  lemma {:induction false} FixedZero(k: nat)
    ensures Fixed(0, k) == seq(k, _ => 0)
  {
    if k > 0 {
      FixedZero(k - 1);
    }
  }

  // The whole conversion.

  /** The setup with the metadata recognised. */
  function Recognised(e: Setup): Option<Setup> {
    var known := Known(e.H, e.storage, 7);
    if known.None? then None else Some(e.(known := known.value))
  }

  ghost predicate BalancesIndexed(e: Setup) {
    && (forall k :: k in e.balances ==> |e.balances[k]| == 20 && k == SlotOf(e.H, e.balances[k]))
    && CollisionFree(e)
  }

  lemma RecognisedFits(e: Setup)
    requires BalancesIndexed(e) && Recognised(e).Some?
    ensures WellFormed(Recognised(e).value)
  {
    hide SlotOf, Known;
    SupplyKnown(e.H, e.storage, 7);
  }

  /** transformOVMState with nothing assumed of the storage: metadata first, then balances. */
  method ConvertState(e: Setup, workers: nat) returns (r: Option<Result>)
    requires BalancesIndexed(e) && workers > 0
    ensures r.Some? <==> Recognised(e).Some? && WellFormed(Recognised(e).value) && Accepted(Recognised(e).value)
    ensures r.Some? ==> r.value == Converted(Recognised(e).value)
  {
    hide Known, WellFormed, Accepted, Converted, BalancesIndexed;
    var known := RecognizeMetadata(e.H, e.storage);
    if known.None? {
      return None;
    }
    RecognisedFits(e);
    r := TransformOVMState(e.(known := known.value), workers);
  }
}
