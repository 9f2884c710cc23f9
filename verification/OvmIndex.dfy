/** The evidence index, a batched write-behind key-value store:
    ovmIndex in internal/migration/ovm_input.go. */
module OvmIndex {
  import opened ByteStrings
  import opened KeyValue
  import opened OvmBalances

  const IDEAL_BATCH_SIZE: nat := 102400

  const BALANCE: byte := 98 // 'b'
  const ALLOWANCE: byte := 97 // 'a'

  function Size(batch: seq<Record>): nat {
    if batch == [] then 0
    else Size(batch[..|batch| - 1]) + |batch[|batch| - 1].key| + |batch[|batch| - 1].value|
  }

  /** The writes of a batch, in order. */
  function Written(db: Database, batch: seq<Record>): Database {
    if batch == [] then db
    else Written(db, batch[..|batch| - 1])[batch[|batch| - 1].key := batch[|batch| - 1].value]
  }

  lemma WrittenAppend(db: Database, batch: seq<Record>, r: Record)
    ensures Written(db, batch + [r]) == Written(db, batch)[r.key := r.value]
  {
    assert (batch + [r])[..|batch|] == batch;
  }

  function AllowanceSlot(H: Hasher, owner: Bytes, spender: Bytes): Hash {
    H(H(Pad(spender) + H(Pad(owner) + Pad([1]))))
  }

  /** Solidity's slots, hashed once more as trie keys: balances are the mapping at slot 0,
      allowances the mapping of mappings at slot 1, owner first, and keys are padded on the left. */
  lemma SlotLayouts(H: Hasher, owner: Bytes, spender: Bytes)
    requires |owner| == 20 && |spender| == 20
    ensures SlotOf(H, owner) == H(H(seq(12, _ => 0) + owner + seq(32, _ => 0)))
    ensures AllowanceSlot(H, owner, spender)
            == H(H(seq(12, _ => 0) + spender + H(seq(12, _ => 0) + owner + (seq(31, _ => 0) + [1]))))
    ensures BALANCE == 'b' as int && ALLOWANCE == 'a' as int
  {
    assert Pad([1]) == seq(31, _ => 0) + [1];
  }

  /** Every balance entry names the address whose slot it stands for. */
  ghost predicate SlotsIndexed(H: Hasher, contents: Database) {
    forall k :: k in contents && k != [] && k[0] == BALANCE ==>
        |contents[k]| == 20 && k == [BALANCE] + SlotOf(H, contents[k])
  }

  lemma TailsDiffer()
    ensures forall j: Bytes, k: Bytes :: j != [] && k != [] && j[0] == k[0] && j[1..] == k[1..] ==> j == k
  {
    forall j: Bytes, k: Bytes | j != [] && k != [] && j[0] == k[0] && j[1..] == k[1..]
      ensures j == k
    {
      assert j == [j[0]] + j[1..] && k == [k[0]] + k[1..];
    }
  }

  /** One namespace, without its prefix. */
  function Namespace(contents: Database, prefix: byte): Database {
    TailsDiffer();
    map k | k in contents && k != [] && k[0] == prefix :: k[1..] := contents[k]
  }

  class Index {
    const H: Hasher
    var db: Database
    var batch: seq<Record>

    ghost function Contents(): Database
      reads this
    {
      Written(db, batch)
    }

    constructor (H: Hasher)
      ensures this.H == H && Contents() == map[] && batch == []
    {
      this.H := H;
      db, batch := map[], [];
    }

    method Flush()
      modifies this
      ensures Contents() == old(Contents()) && batch == [] && db == Contents()
    {
      db, batch := Written(db, batch), [];
    }

    /** put: one more write; flushing on a full batch changes nothing that can be read after a flush. */
    method Put(prefix: byte, key: Bytes, value: Bytes)
      modifies this
      ensures Contents() == old(Contents())[[prefix] + key := value]
    {
      var r := Record.Record([prefix] + key, value);
      WrittenAppend(db, batch, r);
      batch := batch + [r];
      if Size(batch) >= IDEAL_BATCH_SIZE {
        Flush();
      }
    }

    /** get reads what has been flushed. */
    method Get(prefix: byte, key: Bytes) returns (value: Option<Bytes>)
      ensures batch == [] ==> value == if [prefix] + key in Contents() then Some(Contents()[[prefix] + key]) else None
    {
      value := if [prefix] + key in db then Some(db[[prefix] + key]) else None;
    }

    method Address(address: Bytes)
      requires |address| == 20 && SlotsIndexed(H, Contents())
      modifies this
      ensures SlotsIndexed(H, Contents())
      ensures Contents() == old(Contents())[[BALANCE] + SlotOf(H, address) := address]
    {
      hide SlotOf;
      Put(BALANCE, SlotOf(H, address), address);
    }

    /** allowance: both parties' balance slots, then the allowance itself. */
    method Allowance(owner: Bytes, spender: Bytes)
      requires |owner| == 20 && |spender| == 20 && SlotsIndexed(H, Contents())
      modifies this
      ensures SlotsIndexed(H, Contents())
      ensures Contents() == old(Contents())[[BALANCE] + SlotOf(H, owner) := owner][[BALANCE] + SlotOf(H,
              spender) := spender]
                            [[ALLOWANCE] + AllowanceSlot(H, owner, spender) := owner + spender]
    {
      hide SlotOf, AllowanceSlot;
      Address(owner);
      Address(spender);
      Put(ALLOWANCE, AllowanceSlot(H, owner, spender), owner + spender);
    }
  }

  /** An index filled only through Address and Allowance gives a conversion the balance
      namespace it relies on. */
  lemma NamespaceIndexed(H: Hasher, contents: Database)
    requires SlotsIndexed(H, contents)
    ensures var b := Namespace(contents, BALANCE);
            forall k :: k in b ==> |b[k]| == 20 && k == SlotOf(H, b[k])
  {
    hide SlotOf;
    var b := Namespace(contents, BALANCE);
    forall k | k in b
      ensures |b[k]| == 20 && k == SlotOf(H, b[k])
    {
      var full :| full in contents && full != [] && full[0] == BALANCE && full[1..] == k;
      assert full == [BALANCE] + k;
    }
  }
}
