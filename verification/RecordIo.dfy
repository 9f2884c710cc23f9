/** The record stream's writer and scanner as they run: buffered output, payloads moved
    and hashed in chunks, and running counts. */
module RecordIo {
  import opened ByteStrings
  import opened Records
  import T = Traversal

  /** recordChainHasher: a Keccak state absorbs its input piece by piece. */
  class ChainHasher {
    const H: Hasher
    var absorbed: Bytes

    constructor (H: Hasher)
      ensures this.H == H
    {
      this.H := H;
      absorbed := [];
    }

    method Start(previous: Hash, header: Bytes)
      modifies this
      ensures absorbed == previous + header
    {
      absorbed := previous + header;
    }

    method Write(piece: Bytes)
      modifies this
      ensures absorbed == old(absorbed) + piece
    {
      absorbed := absorbed + piece;
    }

    function Sum(): Hash
      reads this
    {
      H(absorbed)
    }
  }

  // Writing.

  /** WriterResult: the stream's summary and the semantic counts. */
  datatype WriterResult = WriterResult(info: StreamInfo, counts: T.Counts)

  datatype StreamInfo = StreamInfo(wire: WireCounts, size: nat, sha256: Hash, chain: Hash)

  class Writer {
    /** ioChunkSize; the output does not depend on it. */
    const chunk: nat
    const start: Hash
    const hasher: ChainHasher
    var out: Bytes
    var chain: Hash
    var counts: WireCounts
    /** The consensus payload bytes and code references, which the wire does not carry. */
    var consensusBytes: nat
    var references: nat
    var closed: bool
    /** The records written so far. */
    ghost var written: seq<Entry>

    ghost predicate Valid()
      reads this
    {
      && chunk > 0 && AllWellFormed(written)
      && out == (if closed then Stream(written) else MAGIC + Frames(written))
      && chain == Chain(hasher.H, start, written)
      && counts == Counts(written)
    }

    /** The counts for the manifest. */
    function Semantic(): T.Counts
      reads this
    {
      T.Counts(counts.accounts, counts.slots, references, counts.codes, counts.records, consensusBytes)
    }

    constructor (H: Hasher, start: Hash, chunk: nat)
      requires chunk > 0
      ensures Semantic() == T.ZERO
      ensures Valid() && fresh(hasher) && hasher.H == H && this.start == start && written == [] && !closed
    {
      this.start, this.chunk := start, chunk;
      hasher := new ChainHasher(H);
      out, chain, counts := MAGIC, start, WireCounts(0, 0, 0, 0, 0);
      consensusBytes, references, closed, written := 0, 0, false, [];
    }

    method CountCodeReference() returns (ok: bool)
      requires Valid()
      modifies this
      ensures Valid() && ok == !old(closed) && references == old(references) + (if ok then 1 else 0)
      ensures ok ==> Semantic() == old(Semantic()).(codeReferences := old(Semantic()).codeReferences + 1)
      ensures unchanged(this`out, this`chain, this`counts, this`consensusBytes, this`closed, this`written)
    {
      ok := !closed;
      if ok {
        references := references + 1;
      }
    }

    /** The payload goes out, and into the hash, one chunk at a time. */
    method WritePayload(payload: Bytes)
      requires chunk > 0
      modifies this`out, hasher
      ensures out == old(out) + payload && hasher.absorbed == old(hasher.absorbed) + payload
    {
      var offset := 0;
      while offset < |payload|
        invariant offset <= |payload|
        invariant out == old(out) + payload[..offset] && hasher.absorbed == old(hasher.absorbed) + payload[..offset]
      {
        var end := if offset + chunk < |payload| then offset + chunk else |payload|;
        var piece := payload[offset..end];
        assert payload[..end] == payload[..offset] + piece;
        out := out + piece;
        hasher.Write(piece);
        offset := end;
      }
      assert payload[..|payload|] == payload;
    }

    /** The header and the payload go out, and the chain moves on. */
    method WriteFrame(header: Bytes, payload: Bytes)
      requires chunk > 0
      modifies this`out, this`chain, hasher
      ensures out == old(out) + header + payload && chain == hasher.H(old(chain) + (header + payload))
    {
      out := out + header;
      hasher.Start(chain, header);
      WritePayload(payload);
      assert hasher.absorbed == old(chain) + (header + payload);
      chain := hasher.Sum();
    }

    /** writeRecord: one more record, exactly when the writer is open and the record is well-formed. */
    method WriteRecord(typ: byte, key: Bytes, subkey: Bytes, payload: Bytes, consensus: nat) returns (ok: bool)
      requires Valid()
      modifies this, hasher
      ensures Valid() && closed == old(closed)
      ensures ok <==> !old(closed) && ValidLength(typ, |payload|) && KeyLength(typ) == Some(|key| + |subkey|)
      ensures written == old(written) + (if ok then [FromKey(typ, key + subkey, payload)] else [])
      ensures Semantic() == if ok then Tally(old(Semantic()), typ, consensus) else old(Semantic())
    {
      hide Frames, Counts, Chain, AllWellFormed, FromKey, Key, ValidLength, Count, Fixed, Frame, HeaderBytes, Tally,
           KeyLength;
      if closed || !ValidLength(typ, |payload|) || KeyLength(typ) != Some(|key| + |subkey|) {
        return false;
      }
      ghost var e := FromKey(typ, key + subkey, payload);
      OneMore(hasher.H, start, written, e, typ, key + subkey, payload);
      CountTallies(counts, references, consensusBytes, typ, |payload|, consensus);
      WriteFrame(HeaderBytes(typ, key + subkey, |payload|), payload);
      counts := Count(counts, typ, |payload|);
      consensusBytes := consensusBytes + consensus;
      assert out == MAGIC + (Frames(written) + Frame(e));
      written := written + [e];
      ok := true;
    }

    /** WriteAccount: also refused when the slim form is longer than the full one. */
    method WriteAccount(account: Hash, slim: Bytes, consensus: nat) returns (ok: bool)
      requires Valid()
      modifies this, hasher
      ensures Valid() && closed == old(closed)
      ensures ok <==> !old(closed) && 0 < |slim| <= 110 && |slim| <= consensus
      ensures written == old(written) + (if ok then [Entry(ACCOUNT, account, NoHash(), slim)] else [])
      ensures Semantic() == if ok then Tally(old(Semantic()), ACCOUNT, consensus) else old(Semantic())
    {
      if |slim| > consensus {
        return false;
      }
      assert account + [] == account;
      ok := WriteRecord(ACCOUNT, account, [], slim, consensus);
    }

    method WriteStorage(account: Hash, slot: Hash, value: Bytes) returns (ok: bool)
      requires Valid()
      modifies this, hasher
      ensures Valid() && closed == old(closed)
      ensures ok <==> !old(closed) && 0 < |value| <= 33
      ensures written == old(written) + (if ok then [Entry(STORAGE, account, slot, value)] else [])
      ensures Semantic() == if ok then Tally(old(Semantic()), STORAGE, |value|) else old(Semantic())
    {
      assert (account + slot)[..32] == account && (account + slot)[32..] == slot;
      ok := WriteRecord(STORAGE, account, slot, value, |value|);
    }

    method WriteCode(hash: Hash, code: Bytes) returns (ok: bool)
      requires Valid()
      modifies this, hasher
      ensures Valid() && closed == old(closed)
      ensures ok <==> !old(closed) && 0 < |code| <= 134217728
      ensures written == old(written) + (if ok then [Entry(CODE, NoHash(), hash, code)] else [])
      ensures Semantic() == if ok then Tally(old(Semantic()), CODE, |code|) else old(Semantic())
    {
      assert hash + [] == hash;
      ok := WriteRecord(CODE, hash, [], code, |code|);
    }

    /** Close: the terminator, once. */
    method Close(S: Hasher) returns (r: Option<WriterResult>)
      requires Valid()
      modifies this
      ensures Valid() && closed && written == old(written)
      ensures r.Some? <==> !old(closed)
      ensures r.Some? ==> r.value == WriterResult(Info(hasher.H, S, start, written), old(Semantic()))
      ensures Semantic() == old(Semantic())
    {
      if closed {
        return None;
      }
      closed := true;
      out := out + [END];
      r := Some(WriterResult(StreamInfo(counts, |out|, S(out), chain), Semantic()));
    }
  }

  /** What a finished stream's manifest says of it. */
  function Info(H: Hasher, S: Hasher, start: Hash, es: seq<Entry>): StreamInfo {
    StreamInfo(Counts(es), |Stream(es)|, S(Stream(es)), Chain(H, start, es))
  }

  /** The wire and the semantic counts count the same records. */
  lemma CountTallies(c: WireCounts, references: nat, bytes: nat, typ: byte, n: nat, consensus: nat)
    ensures var d := Count(c, typ, n);
            T.Counts(d.accounts, d.slots, references, d.codes, d.records, bytes + consensus)
            == Tally(T.Counts(c.accounts, c.slots, references, c.codes, c.records, bytes), typ, consensus)
  {
  }

  lemma OneMore(H: Hasher, start: Hash, es: seq<Entry>, e: Entry, typ: byte, key: Bytes, payload: Bytes)
    requires AllWellFormed(es) && KeyLength(typ) == Some(|key|) && ValidLength(typ, |payload|)
             && e == FromKey(typ, key, payload)
    ensures AllWellFormed(es + [e]) && Frame(e) == HeaderBytes(typ, key, |payload|) + payload
    ensures Frames(es + [e]) == Frames(es) + Frame(e)
    ensures Chain(H, start, es + [e]) == H(Chain(H, start, es) + Frame(e))
    ensures Counts(es + [e]) == Count(Counts(es), typ, |payload|)
  {
    hide Frames, Counts, Chain, FromKey, Key, ValidLength, Count, Fixed, WellFormed;
    FromKeyInverse(typ, key, payload);
    Append(H, start, es, e);
  }

  // Scanning.

  class Scanner {
    /** ioChunkSize; what is read does not depend on it. */
    const chunk: nat
    const data: Bytes
    const hasher: ChainHasher
    const start: Hash
    var at: nat
    var chain: Hash
    var counts: WireCounts
    var terminated: bool
    /** The records delivered so far. */
    ghost var delivered: seq<Entry>

    /** What has been read is the stream of what has been delivered. */
    ghost predicate Valid()
      reads this
    {
      && chunk > 0 && |MAGIC| <= at <= |data| && AllWellFormed(delivered)
      && data[..at] == (if terminated then Stream(delivered) else MAGIC + Frames(delivered))
      && (terminated ==> at == |data|)
      && chain == Chain(hasher.H, start, delivered) && counts == Counts(delivered)
    }

    /** openRecordScanner, after its check of the magic. */
    constructor (H: Hasher, start: Hash, data: Bytes, chunk: nat)
      requires chunk > 0 && |data| >= |MAGIC| && data[..|MAGIC|] == MAGIC
      ensures Valid() && fresh(hasher) && hasher.H == H && this.start == start && this.data == data
      ensures delivered == [] && !terminated && at == |MAGIC|
    {
      this.data, this.start, this.chunk := data, start, chunk;
      hasher := new ChainHasher(H);
      at, chain, counts, terminated, delivered := |MAGIC|, start, WireCounts(0, 0, 0, 0, 0), false, [];
    }

    /** readFull: n bytes in chunks, or an error when the stream ends first. */
    method ReadFull(n: nat) returns (b: Option<Bytes>)
      requires chunk > 0 && at <= |data|
      modifies this`at
      ensures b.Some? <==> old(at) + n <= |data|
      ensures b.Some? ==> at == old(at) + n && b.value == data[old(at)..at]
    {
      var got: Bytes := [];
      while |got| < n
        invariant |got| <= n && at == old(at) + |got| <= |data| && got == data[old(at)..at]
        decreases n - |got|
      {
        var size := if n - |got| < chunk then n - |got| else chunk;
        if |data| < at + size {
          return None;
        }
        got := got + data[at..at + size];
        at := at + size;
      }
      b := Some(got);
    }

    /** readPayload: the same, hashing each chunk. */
    method ReadPayload(n: nat) returns (b: Option<Bytes>)
      requires chunk > 0 && at <= |data|
      modifies this`at, hasher
      ensures b.Some? <==> old(at) + n <= |data|
      ensures b.Some? ==>
                at == old(at) + n && b.value == data[old(at)..at] && hasher.absorbed == old(hasher.absorbed) + b.value
    {
      var got: Bytes := [];
      while |got| < n
        invariant |got| <= n && at == old(at) + |got| <= |data| && got == data[old(at)..at]
        invariant hasher.absorbed == old(hasher.absorbed) + got
        decreases n - |got|
      {
        var size := if n - |got| < chunk then n - |got| else chunk;
        if |data| < at + size {
          return None;
        }
        hasher.Write(data[at..at + size]);
        got := got + data[at..at + size];
        at := at + size;
      }
      b := Some(got);
    }

    /** The payload after a header, and the chain with both. */
    method ReadBody(header: Bytes, n: nat) returns (b: Option<Bytes>)
      requires chunk > 0 && at <= |data|
      modifies this`at, this`chain, hasher
      ensures b.Some? <==> old(at) + n <= |data|
      ensures b.Some? ==>
                at == old(at) + n && b.value == data[old(at)..at] && chain == hasher.H(old(chain) + (header + b.value))
    {
      hasher.Start(chain, header);
      b := ReadPayload(n);
      if b.Some? {
        assert hasher.absorbed == old(chain) + (header + b.value);
        chain := hasher.Sum();
      }
    }

    /** Next after a record type: its header and payload. */
    method NextRecord(typ: byte) returns (r: Reading)
      requires chunk > 0 && at < |data| && data[at] == typ && typ != END
      modifies this`at, this`chain, this`counts, hasher
      ensures r == ReadAt(data, old(at))
      ensures r.Got? ==> at == r.next && chain == hasher.H(old(chain) + Frame(r.entry))
      ensures r.Got? ==> counts == Count(old(counts), r.entry.typ, |r.entry.payload|)
    {
      hide FromKey, Key, Count, Fixed, ValidLength, Header, FromBigEndian, ReadAt, Frame, KeyLength, HeaderBytes;
      HeaderAt(data, at);
      var k := KeyLength(typ);
      if k.None? {
        return Bad;
      }
      ghost var from := at;
      at := at + 1;
      var rest := ReadFull(k.value + 8);
      if rest.None? {
        return Bad;
      }
      var key, size := rest.value[..k.value], rest.value[k.value..];
      assert key == data[from + 1..from + 1 + k.value] && size == data[from + 1 + k.value..from + 1 + k.value + 8];
      var length := FromBigEndian(size);
      if !ValidLength(typ, length) {
        return Bad;
      }
      HeaderIs(typ, key, size, rest.value, length);
      var payload := ReadBody([typ] + rest.value, length);
      if payload.None? {
        return Bad;
      }
      counts := Count(counts, typ, length);
      r := Got(FromKey(typ, key, payload.value), at);
      FromKeyInverse(typ, key, payload.value);
      FrameIs(r.entry, typ, key, payload.value);
    }

    /** Next: what the format says lies at the current position; after the terminator, the end again. */
    method Next() returns (r: Reading)
      requires Valid()
      modifies this, hasher
      ensures r == if old(terminated) then Finished else ReadAt(data, old(at))
      ensures !r.Bad? ==> Valid() && terminated == r.Finished?
      ensures r.Got? ==> delivered == old(delivered) + [r.entry] && at == r.next
      ensures r.Finished? ==> delivered == old(delivered)
    {
      hide Frames, Counts, Chain, Count, Frame, WellFormed;
      if terminated {
        return Finished;
      }
      if at == |data| {
        return Bad;
      }
      var typ := data[at];
      if typ == END {
        if at + 1 < |data| {
          return Bad;
        }
        assert data[..at + 1] == data[..at] + [END];
        at, terminated := at + 1, true;
        return Finished;
      }
      r := NextRecord(typ);
      if r.Got? {
        ReadIsFrame(data, old(at));
        Append(hasher.H, start, delivered, r.entry);
        assert data[..at] == data[..old(at)] + data[old(at)..at];
        delivered := delivered + [r.entry];
      }
    }
  }

  /** ReadAt at a record type, in the order its parts are read. */
  lemma HeaderAt(data: Bytes, at: nat)
    requires at < |data| && data[at] != END
    ensures var k := KeyLength(data[at]);
            if k.None? || |data| < at + 1 + k.value + 8 then ReadAt(data, at) == Bad
            else
              var body := at + 1 + k.value + 8;
              var n := FromBigEndian(data[at + 1 + k.value..body]);
              ReadAt(data, at)
              == if !ValidLength(data[at], n) || |data| < body + n then Bad
                 else Got(FromKey(data[at], data[at + 1..at + 1 + k.value], data[body..body + n]), body + n)
  {
    hide FromKey, FromBigEndian, ValidLength;
  }

  lemma FrameIs(e: Entry, typ: byte, key: Bytes, payload: Bytes)
    requires e.typ == typ && Key(e) == key && e.payload == payload
    ensures Frame(e) == HeaderBytes(typ, key, |payload|) + payload
  {
  }

  lemma HeaderIs(typ: byte, key: Bytes, size: Bytes, rest: Bytes, n: nat)
    requires |size| == 8 && rest == key + size && n == FromBigEndian(size)
    ensures [typ] + rest == HeaderBytes(typ, key, n)
  {
    FromFixedInverse(size);
  }

  /** scanRecords: the stream's records, when the bytes are a stream and the manifest
      describes it. */
  method ScanRecords(H: Hasher, S: Hasher, start: Hash, chunk: nat, data: Bytes, manifest: StreamInfo)
                     returns (r: Option<seq<Entry>>)
    requires chunk > 0
    ensures r.Some? <==> ReadStream(data).Some? && manifest == Info(H, S, start, ReadStream(data).value)
    ensures r.Some? ==> r == ReadStream(data)
  {
    hide ReadAt, Frames, Counts, Chain, AllWellFormed;
    if ReadStream(data).Some? {
      ReadCanonical(data);
    }
    if |data| != manifest.size || |data| < |MAGIC| || data[..|MAGIC|] != MAGIC {
      return None;
    }
    var s := new Scanner(H, start, data, chunk);
    var records: seq<Entry> := [];
    NothingYet(ReadFrom(data, |MAGIC|));
    while true
      invariant fresh(s) && fresh(s.hasher) && s.Valid() && !s.terminated && s.data == data && s.start == start
                && s.hasher.H == H
      invariant records == s.delivered
      invariant ReadFrom(data, |MAGIC|) == After(records, ReadFrom(data, s.at))
      decreases |data| - s.at
    {
      ghost var from := s.at;
      var next := s.Next();
      if next.Bad? {
        return None;
      }
      if next.Finished? {
        assert records + [] == records;
        break;
      }
      ReadIsFrame(data, from);
      records := records + [next.entry];
      Regroup(records[..|records| - 1], next.entry, ReadFrom(data, next.next));
    }
    if s.counts != manifest.wire || S(data) != manifest.sha256 || s.chain != manifest.chain {
      return None;
    }
    r := Some(records);
  }

  ghost function After(records: seq<Entry>, rest: Option<seq<Entry>>): Option<seq<Entry>> {
    if rest.None? then None else Some(records + rest.value)
  }

  lemma NothingYet(rest: Option<seq<Entry>>)
    ensures After([], rest) == rest
  {
    if rest.Some? {
      assert [] + rest.value == rest.value;
    }
  }

  lemma Regroup(a: seq<Entry>, e: Entry, rest: Option<seq<Entry>>)
    ensures After(a, After([e], rest)) == After(a + [e], rest)
  {
    if rest.Some? {
      assert a + ([e] + rest.value) == a + [e] + rest.value;
    }
  }
}
