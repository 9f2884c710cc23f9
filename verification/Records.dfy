/** The record stream's bytes: the writer of internal/bundle/records.go, the scanner of
    internal/bundle/scanner.go, and the format between them. */
module Records {
  import opened ByteStrings
  import T = Traversal

  const MAGIC: Bytes := [76, 50, 83, 84, 65, 84, 69, 49] // "L2STATE1"

  const END: byte := 0
  const ACCOUNT: byte := 1
  const STORAGE: byte := 2
  const CODE: byte := 3

  datatype Entry = Entry(typ: byte, account: Hash, sub: Hash, payload: Bytes)

  /** recordKeyLength; None is an unknown type. */
  function KeyLength(typ: byte): Option<nat> {
    if typ == ACCOUNT || typ == CODE then Some(32) else if typ == STORAGE then Some(64) else None
  }

  function MaxPayload(typ: byte): nat {
    if typ == ACCOUNT then 110 else if typ == STORAGE then 33 else if typ == CODE then 134217728 else 0
  }

  /** validatePayloadLength. */
  predicate ValidLength(typ: byte, n: nat) { 0 < n <= MaxPayload(typ) }

  function Key(e: Entry): Bytes {
    if e.typ == ACCOUNT then e.account else if e.typ == STORAGE then e.account + e.sub else e.sub
  }

  /** recordFromHeader. */
  function FromKey(typ: byte, key: Bytes, payload: Bytes): Entry
    requires KeyLength(typ) == Some(|key|)
  {
    if typ == ACCOUNT then Entry(typ, key, NoHash(), payload)
    else if typ == STORAGE then Entry(typ, key[..32], key[32..], payload)
    else Entry(typ, NoHash(), key, payload)
  }

  /** The records a stream can hold. */
  predicate WellFormed(e: Entry) {
    && ValidLength(e.typ, |e.payload|)
    && (e.typ == ACCOUNT ==> e.sub == NoHash()) && (e.typ == CODE ==> e.account == NoHash())
  }

  predicate AllWellFormed(es: seq<Entry>) { forall i :: 0 <= i < |es| ==> WellFormed(es[i]) }

  function HeaderBytes(typ: byte, key: Bytes, n: nat): Bytes { [typ] + key + Fixed(n, 8) }

  function Header(e: Entry): Bytes { HeaderBytes(e.typ, Key(e), |e.payload|) }

  function Frame(e: Entry): Bytes { Header(e) + e.payload }

  function Frames(es: seq<Entry>): Bytes {
    if es == [] then [] else Frames(es[..|es| - 1]) + Frame(es[|es| - 1])
  }

  /** A complete stream. */
  function Stream(es: seq<Entry>): Bytes { MAGIC + Frames(es) + [END] }

  /** The running hash over everything before the terminator. */
  function Chain(H: Hasher, start: Hash, es: seq<Entry>): Hash {
    if es == [] then start else H(Chain(H, start, es[..|es| - 1]) + Frame(es[|es| - 1]))
  }

  datatype WireCounts = WireCounts(accounts: nat, slots: nat, codes: nat, records: nat, payload: nat)

  /** The semantic counts after one more record; n is its length in consensus form. */
  function Tally(c: T.Counts, typ: byte, n: nat): T.Counts {
    T.Counts(c.accounts + (if typ == ACCOUNT then 1 else 0), c.storageSlots + (if typ == STORAGE then 1 else 0),
             c.codeReferences, c.codeRecords + (if typ == CODE then 1 else 0), c.records + 1, c.payloadBytes + n)
  }

  function Count(c: WireCounts, typ: byte, n: nat): WireCounts {
    WireCounts(c.accounts + (if typ == ACCOUNT then 1 else 0), c.slots + (if typ == STORAGE then 1 else 0),
               c.codes + (if typ == CODE then 1 else 0), c.records + 1, c.payload + n)
  }

  function Counts(es: seq<Entry>): WireCounts {
    if es == [] then WireCounts(0, 0, 0, 0, 0) else Count(Counts(es[..|es| - 1]), es[|es| - 1].typ,
        |es[|es| - 1].payload|)
  }

  lemma Append(H: Hasher, start: Hash, es: seq<Entry>, e: Entry)
    ensures Frames(es + [e]) == Frames(es) + Frame(e)
    ensures Chain(H, start, es + [e]) == H(Chain(H, start, es) + Frame(e))
    ensures Counts(es + [e]) == Count(Counts(es), e.typ, |e.payload|)
  {
    hide Frame, Count;
    assert (es + [e])[..|es|] == es;
  }

  // Reading one frame.

  datatype Reading = Got(entry: Entry, next: nat) | Finished | Bad

  /** What lies at a position of the stream. */
  function ReadAt(data: Bytes, at: nat): Reading
    requires at <= |data|
  {
    if at == |data| then Bad
    else if data[at] == END then (if at + 1 == |data| then Finished else Bad)
    else
      var typ := data[at];
      var k := KeyLength(typ);
      if k.None? || |data| < at + 1 + k.value + 8 then Bad
      else
        var n := FromBigEndian(data[at + 1 + k.value..at + 1 + k.value + 8]);
        var body := at + 1 + k.value + 8;
        if !ValidLength(typ, n) || |data| < body + n then Bad
        else Got(FromKey(typ, data[at + 1..at + 1 + k.value], data[body..body + n]), body + n)
  }

  lemma LengthFits(n: nat)
    requires n <= 134217728
    ensures n < Power256(8)
  {
    assert Power256(8) == 256 * 256 * 256 * 256 * Power256(4);
  }

  /** Key and FromKey undo each other. */
  lemma KeyInverse(e: Entry)
    requires WellFormed(e)
    ensures KeyLength(e.typ) == Some(|Key(e)|) && FromKey(e.typ, Key(e), e.payload) == e
  {
  }

  lemma FromKeyInverse(typ: byte, key: Bytes, payload: Bytes)
    requires KeyLength(typ) == Some(|key|) && ValidLength(typ, |payload|)
    ensures var e := FromKey(typ, key, payload); WellFormed(e) && Key(e) == key && e.typ == typ && e.payload == payload
  {
  }

  lemma FrameParts(data: Bytes, at: nat, typ: byte, key: Bytes, size: Bytes, payload: Bytes, rest: Bytes)
    requires at <= |data| && data[at..] == [typ] + key + size + payload + rest && |size| == 8
    ensures var k := |key|;
            && at + 1 + k + 8 + |payload| <= |data| && data[at] == typ && data[at + 1..at + 1 + k] == key
            && data[at + 1 + k..at + 1 + k + 8] == size
            && data[at + 1 + k + 8..at + 1 + k + 8 + |payload|] == payload
            && data[at + 1 + k + 8 + |payload|..] == rest
  {
    var tail := [typ] + key + size + payload + rest;
    assert |tail| == |data| - at;
    assert data[at] == data[at..][0];
    var k := |key|;
    assert tail[1..1 + k] == key && tail[1 + k..1 + k + 8] == size;
    assert tail[1 + k + 8..1 + k + 8 + |payload|] == payload && tail[1 + k + 8 + |payload|..] == rest;
  }

  /** A frame reads as its record. */
  lemma ReadFrame(data: Bytes, at: nat, e: Entry, rest: Bytes)
    requires at <= |data| && WellFormed(e) && data[at..] == Frame(e) + rest
    ensures ReadAt(data, at) == Got(e, at + |Frame(e)|) && data[at + |Frame(e)|..] == rest
  {
    hide Fixed, FromBigEndian, Power256, WellFormed, KeyLength, FromKey, Key;
    var size := Fixed(|e.payload|, 8);
    KeyInverse(e);
    TypeKnown(e);
    assert Frame(e) + rest == [e.typ] + Key(e) + size + e.payload + rest;
    FrameParts(data, at, e.typ, Key(e), size, e.payload, rest);
    LengthFits(|e.payload|);
    FixedInverse(|e.payload|, 8);
  }

  lemma TypeKnown(e: Entry)
    requires WellFormed(e)
    ensures e.typ != END && KeyLength(e.typ).Some? && ValidLength(e.typ, |e.payload|) && |e.payload| <= 134217728
  {
  }

  lemma Pieces(data: Bytes, at: nat, k: nat, n: nat)
    requires at + 1 + k + 8 + n <= |data|
    ensures var body := at + 1 + k + 8;
            data[at..body + n] == [data[at]] + data[at + 1..at + 1 + k] + data[at + 1 + k..body] + data[body..body + n]
  {
    var body := at + 1 + k + 8;
    assert data[at..body + n] == data[at..at + 1 + k] + data[at + 1 + k..body + n];
    assert data[at..at + 1 + k] == [data[at]] + data[at + 1..at + 1 + k];
    assert data[at + 1 + k..body + n] == data[at + 1 + k..body] + data[body..body + n];
  }

  /** A record reads only from its frame. */
  lemma ReadIsFrame(data: Bytes, at: nat)
    requires at <= |data| && ReadAt(data, at).Got?
    ensures var r := ReadAt(data, at);
            WellFormed(r.entry) && at < r.next <= |data| && data[at..r.next] == Frame(r.entry)
  {
    hide FromBigEndian, Fixed, FromKey, WellFormed, Key, ValidLength;
    var typ := data[at];
    var k := KeyLength(typ).value;
    var key, size := data[at + 1..at + 1 + k], data[at + 1 + k..at + 1 + k + 8];
    var n := FromBigEndian(size);
    var body := at + 1 + k + 8;
    FromFixedInverse(size);
    FromKeyInverse(typ, key, data[body..body + n]);
    Pieces(data, at, k, n);
  }

  // Whole streams.

  /** The records from a position to the terminator. */
  function ReadFrom(data: Bytes, at: nat): Option<seq<Entry>>
    requires at <= |data|
    decreases |data| - at
  {
    var r := ReadAt(data, at);
    if r.Finished? then Some([])
    else if r.Bad? then None
    else
      ReadIsFrame(data, at);
      var rest := ReadFrom(data, r.next);
      if rest.None? then None else Some([r.entry] + rest.value)
  }

  function ReadStream(data: Bytes): Option<seq<Entry>> {
    if |data| < |MAGIC| || data[..|MAGIC|] != MAGIC then None else ReadFrom(data, |MAGIC|)
  }

  lemma {:induction false} FramesFront(es: seq<Entry>)
    requires es != []
    ensures Frames(es) == Frame(es[0]) + Frames(es[1..])
  {
    hide Frame;
    var n := |es| - 1;
    if n == 0 {
      assert Frames(es[..0]) == [] && Frames(es[1..]) == [];
    } else {
      FramesFront(es[..n]);
      assert es[..n][1..] == es[1..][..n - 1];
      assert Frames(es[1..]) == Frames(es[1..][..n - 1]) + Frame(es[n]);
    }
  }

  lemma {:induction false} ReadFrames(data: Bytes, at: nat, es: seq<Entry>)
    requires at <= |data| && AllWellFormed(es) && data[at..] == Frames(es) + [END]
    ensures ReadFrom(data, at) == Some(es)
    decreases |es|
  {
    hide WellFormed, Frame, ReadAt;
    if es == [] {
      ReadEnd(data, at);
    } else {
      FramesFront(es);
      assert Frames(es) + [END] == Frame(es[0]) + (Frames(es[1..]) + [END]);
      ReadFrame(data, at, es[0], Frames(es[1..]) + [END]);
      ReadIsFrame(data, at);
      ReadFrames(data, at + |Frame(es[0])|, es[1..]);
      assert es == [es[0]] + es[1..];
    }
  }

  lemma ReadEnd(data: Bytes, at: nat)
    requires at <= |data|
    ensures ReadAt(data, at).Finished? <==> data[at..] == [END]
  {
    hide FromBigEndian, FromKey;
    if at < |data| {
      assert data[at..][0] == data[at];
    }
    if at + 1 == |data| {
      assert data[at..] == [data[at]];
    }
  }

  lemma {:induction false} ReadIsFrames(data: Bytes, at: nat)
    requires at <= |data| && ReadFrom(data, at).Some?
    ensures var es := ReadFrom(data, at).value; AllWellFormed(es) && data[at..] == Frames(es) + [END]
    decreases |data| - at
  {
    hide WellFormed, Frame, ReadAt;
    ReadEnd(data, at);
    var r := ReadAt(data, at);
    if r.Got? {
      ReadIsFrame(data, at);
      ReadIsFrames(data, r.next);
      var es := ReadFrom(data, at).value;
      FramesFront(es);
      assert es[1..] == ReadFrom(data, r.next).value;
      assert data[at..] == data[at..r.next] + data[r.next..];
    }
  }

  /** Scanning what was written gives the records back. */
  lemma ReadWritten(es: seq<Entry>)
    requires AllWellFormed(es)
    ensures ReadStream(Stream(es)) == Some(es)
  {
    hide AllWellFormed, Frames, ReadFrom;
    var data := Stream(es);
    assert data[..|MAGIC|] == MAGIC;
    assert data[|MAGIC|..] == Frames(es) + [END];
    ReadFrames(data, |MAGIC|, es);
  }

  /** An accepted byte string is the only spelling of its records. */
  lemma ReadCanonical(data: Bytes)
    requires ReadStream(data).Some?
    ensures AllWellFormed(ReadStream(data).value) && Stream(ReadStream(data).value) == data
  {
    hide AllWellFormed, Frames, ReadFrom;
    ReadIsFrames(data, |MAGIC|);
    assert data == data[..|MAGIC|] + data[|MAGIC|..];
  }
}
