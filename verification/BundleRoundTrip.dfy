/** From a state to a stream's bytes and back. */
module BundleRoundTrip {
  import opened ByteStrings
  import opened AccountCodec
  import opened Records
  import opened RecordIo
  import opened Bundle
  import opened Consumer
  import opened ConsumerCounts
  import opened ConsumerRun
  import T = Traversal

  function RootOf(env: Env, hs: seq<Holding>): Hash { StorageRoot(env, AccountLeaves(hs)) }

  /** The state root is that of the accounts' full forms under their hashes. */
  lemma RootMeans(env: Env, hs: seq<Holding>, leaves: seq<Leaf>)
    requires |leaves| == |hs|
    requires forall i :: 0 <= i < |hs| ==>
               leaves[i].key == hs[i].hash && DecodeFull(leaves[i].value) == Some(hs[i].account)
    ensures RootOf(env, hs) == if hs == [] then env.H([0x80]) else env.rootOf(leaves)
  {
    hide EncodeFull, DecodeFull;
    forall i | 0 <= i < |hs|
      ensures leaves[i] == AccountLeaves(hs)[i]
    {
      FullCanonical(leaves[i].value);
    }
    assert leaves == AccountLeaves(hs);
  }

  /** The bytes of a state's bundle. */
  function BundleBytes(env: Env, s: State): Bytes {
    var hs := Holdings(env, s);
    Stream(Emit(env, hs, |hs|))
  }

  lemma EmissionWellFormed(env: Env, h: Holding)
    requires SlotsValid(h.slots) && (h.code.Some? ==> 0 < |h.code.value| <= 134217728)
    ensures AllWellFormed(Emission(env, h))
  {
    hide EncodeAccount, ValidStorage, Power256, Less, SlotsValid;
    AccountFits(env, h);
    forall i | 0 <= i < |h.slots|
      ensures WellFormed(SlotEntries(h)[i])
    {
      SlotFits(h, i);
    }
  }

  lemma {:induction false} EmitWellFormed(env: Env, hs: seq<Holding>, n: nat)
    requires HoldingsValid(env, hs) && CodesFit(hs) && n <= |hs|
    ensures AllWellFormed(Emit(env, hs, n))
  {
    hide HoldingsValid, Emission, WellFormed, Provided, SlotsValid;
    if n > 0 {
      EmitWellFormed(env, hs, n - 1);
      ValidAt(env, hs, n - 1);
      EmissionWellFormed(env, hs[n - 1]);
    }
  }

  /** Every valid state whose codes fit a record survives export and import: its bytes
      are a stream, the stream's records are accepted with the state's root, and they
      restore the state. */
  lemma ExportImports(env: Env, s: State)
    requires StateValid(env, s) && CodesFit(Holdings(env, s))
    ensures var hs := Holdings(env, s);
            var es := ReadStream(BundleBytes(env, s));
            && es.Some? && Scan(env, es.value, RootOf(env, hs)).Some?
            && Scan(env, es.value, RootOf(env, hs)).value.done == hs
            && StateOf(hs).accounts == s.accounts
            && (forall h :: h in References(env, s.accounts, |s.accounts|) ==>
                  h in s.codes && h in StateOf(hs).codes && StateOf(hs).codes[h] == s.codes[h])
  {
    hide StateValid, HoldingsValid, CodesFit, Scan, Emit, AllWellFormed, StorageRoot, Stream, ReadStream, CodesOf,
         References;
    var hs := Holdings(env, s);
    StateHoldings(env, s);
    EmitWellFormed(env, hs, |hs|);
    ReadWritten(Emit(env, hs, |hs|));
    EmissionScans(env, s, RootOf(env, hs));
    AccountsFrom(env, s);
    CodesProvided(env, hs, |hs|);
    CodesFrom(env, s, |hs|);
  }

  /** Every accepted byte string is the bundle of the state it restores: nothing else has
      those bytes, and that state has no others. */
  lemma ImportExports(env: Env, data: Bytes, root: Hash)
    requires ReadStream(data).Some? && Scan(env, ReadStream(data).value, root).Some?
    ensures var s := StateOf(Scan(env, ReadStream(data).value, root).value.done);
            StateValid(env, s) && RootOf(env, Holdings(env, s)) == root && BundleBytes(env, s) == data
  {
    hide StateValid, HoldingsValid, Scan, Emit, AllWellFormed, StorageRoot, Stream, ReadStream;
    ReadCanonical(data);
    ScanExact(env, ReadStream(data).value, root);
  }

  ghost function CodeSize(s: State): Hash -> nat { h => if h in s.codes then |s.codes[h]| else 0 }

  lemma CodeSizes(env: Env, s: State)
    ensures Sizes(Holdings(env, s), CodeSize(s))
  {
    hide References;
  }

  /** An exported bundle passes its own manifest: records, root and semantic counts. */
  lemma ExportCounts(env: Env, s: State)
    requires StateValid(env, s) && CodesFit(Holdings(env, s))
    ensures var hs := Holdings(env, s);
            var p := Scan(env, Emit(env, hs, |hs|), RootOf(env, hs));
            p.Some? && p.value.done == hs && p.value.counts == T.Traverse(CountedAccounts(env, hs), CodeSize(s), |hs|)
  {
    hide StateValid, HoldingsValid, CodesFit, Scan, Emit, AllWellFormed, StorageRoot, T.Traverse, CountedAccounts;
    var hs := Holdings(env, s);
    StateHoldings(env, s);
    EmitWellFormed(env, hs, |hs|);
    EmissionScans(env, s, RootOf(env, hs));
    CodeSizes(env, s);
    ScanCounts(env, Emit(env, hs, |hs|), RootOf(env, hs), CodeSize(s));
  }

  /** Export, then import with the manifest the export wrote: for any two chunk sizes the bytes
      are the state's bundle, and the import accepts them and rebuilds the account leaves. It
      stops only at a code too long for a record. */
  method ExportThenImport(env: Env, S: Hasher, start: Hash, s: State, writeChunk: nat, readChunk: nat)
    returns (bytes: Bytes, leaves: Option<seq<Leaf>>)
    requires StateValid(env, s) && writeChunk > 0 && readChunk > 0
    ensures leaves.Some? <==> CodesFit(Holdings(env, s))
    ensures leaves.Some? ==> bytes == BundleBytes(env, s) && leaves.value == AccountLeaves(Holdings(env, s))
  {
    hide StateValid, HoldingsValid, CodesFit, Scan, Emit, AllWellFormed, StorageRoot, ReadStream, T.Traverse,
         CountedAccounts, AccountLeaves, Frames, Counts, Chain, Sizes, Writer.Semantic, Holdings;
    var hs := Holdings(env, s);
    StateHoldings(env, s);
    CodeSizes(env, s);
    var w := new Writer(env.H, start, writeChunk);
    var ok := Export(env, w, hs, CodeSize(s));
    if !ok {
      return [], None;
    }
    var result := w.Close(S);
    bytes := w.out;
    EmitWellFormed(env, hs, |hs|);
    ReadWritten(Emit(env, hs, |hs|));
    ExportCounts(env, s);
    var es := ScanRecords(env.H, S, start, readChunk, bytes, result.value.info);
    leaves := ScanBundle(env, es.value, RootOf(env, hs), result.value.counts);
  }
}
