/** The GenesisAlloc byte filter, which bounds a JSON token and collapses whitespace
    outside strings in place: internal/migration/ovm_alloc_input.go. */
module AllocFilter {
  import opened ByteStrings

  const QUOTE: byte := 34
  const BACKSLASH: byte := 92
  const SPACE: byte := 32

  /** The longest token: a code string of 2^20 bytes with every character escaped. */
  const LIMIT: nat := 6 * (2 * 1048576 + 2) + 2

  datatype State = State(length: nat, quoted: bool, escaped: bool, space: bool)

  function Fresh(): State { State(0, false, false, false) }

  predicate IsSpace(b: byte) { b == 32 || b == 9 || b == 13 || b == 10 }

  /** "{}[],:" */
  predicate IsDelimiter(b: byte) { b == 123 || b == 125 || b == 91 || b == 93 || b == 44 || b == 58 }

  /** A whitespace byte outside strings. */
  predicate Blank(s: State, b: byte) { !s.quoted && IsSpace(b) }

  /** tokenByte; None is an oversized token. */
  function TokenByte(s: State, b: byte): Option<State> {
    if s.length + 1 > LIMIT then None
    else
      var n := s.(length := s.length + 1);
      if s.quoted then
        if s.escaped then Some(n.(escaped := false))
        else if b == BACKSLASH then Some(n.(escaped := true))
        else if b == QUOTE then Some(n.(quoted := false, length := 0))
        else Some(n)
      else if b == QUOTE then Some(n.(quoted := true, length := 1))
      else if IsDelimiter(b) then Some(n.(length := 0))
      else Some(n)
  }

  /** The characters those bytes are, and the longest token in bytes. */
  lemma JsonCharacters(c: char)
    requires c as int < 256
    ensures IsSpace(c as int) <==> c == ' ' || c == '\t' || c == '\r' || c == '\n'
    ensures IsDelimiter(c as int) <==> c in "{}[],:"
    ensures QUOTE == '"' as int && BACKSLASH == '\\' as int && SPACE == ' ' as int && LIMIT == 12582926
  {
    var delimiters := "{}[],:";
    assert delimiters == ['{', '}', '[', ']', ',', ':'];
    if IsDelimiter(c as int) {
      assert c == '{' || c == '}' || c == '[' || c == ']' || c == ',' || c == ':';
    }
  }

  datatype Filtered = Filtered(out: Bytes, state: State, ok: bool)

  /** One byte of the filter's loop. */
  function StepByte(f: Filtered, b: byte): Filtered {
    if !f.ok then f
    else if Blank(f.state, b) then
      Filtered(if f.state.space then f.out else f.out + [SPACE], f.state.(length := 0, space := true), true)
    else
      var s := f.state.(space := false);
      var t := TokenByte(s, b);
      if t.None? then Filtered(f.out, s.(length := s.length + 1), false) else Filtered(f.out + [b], t.value, true)
  }

  /** The filter over a byte string. */
  function Filter(s: State, x: Bytes): Filtered {
    if x == [] then Filtered([], s, true) else StepByte(Filter(s, x[..|x| - 1]), x[|x| - 1])
  }

  lemma FilterSnoc(s: State, x: Bytes, b: byte)
    ensures Filter(s, x + [b]) == StepByte(Filter(s, x), b)
  {
    hide StepByte;
    assert (x + [b])[..|x|] == x;
  }

  lemma StepFrom(prefix: Bytes, f: Filtered, b: byte)
    ensures StepByte(f.(out := prefix + f.out), b) == StepByte(f, b).(out := prefix + StepByte(f, b).out)
  {
    hide TokenByte;
    assert prefix + (f.out + [SPACE]) == prefix + f.out + [SPACE];
    assert prefix + (f.out + [b]) == prefix + f.out + [b];
  }

  /** However the input is split into reads, the output is the same. */
  lemma {:induction false} FilterSplit(s: State, x: Bytes, y: Bytes)
    ensures var f := Filter(s, x);
            var g := Filter(f.state, y);
            Filter(s, x + y) == if f.ok then g.(out := f.out + g.out) else f
    decreases |y|
  {
    hide StepByte;
    var f := Filter(s, x);
    if y == [] {
      assert x + y == x && f.out + [] == f.out;
    } else {
      var n := |y| - 1;
      FilterSplit(s, x, y[..n]);
      assert (x + y)[..|x + y| - 1] == x + y[..n];
      var g := Filter(f.state, y[..n]);
      if f.ok {
        StepFrom(f.out, g, y[n]);
      } else {
        Stuck(f, y[n]);
      }
    }
  }

  lemma Stuck(f: Filtered, b: byte)
    requires !f.ok
    ensures StepByte(f, b) == f
  {
  }

  // What the output is.

  /** A byte that is kept, and whether whitespace came just before it. */
  datatype Mark = Mark(b: byte, spaced: bool)

  datatype Scan = Scan(marks: seq<Mark>, quoted: bool, escaped: bool, space: bool)

  /** Reading bytes as JSON text does: strings whole, whitespace only as separation. */
  function ScanByte(c: Scan, b: byte): Scan {
    if !c.quoted && IsSpace(b) then c.(space := true)
    else
      var quoted := if c.quoted then c.escaped || b != QUOTE else b == QUOTE;
      var escaped := c.quoted && !c.escaped && b == BACKSLASH;
      Scan(c.marks + [Mark(b, c.space)], quoted, escaped, false)
  }

  function ScanText(x: Bytes): Scan {
    if x == [] then Scan([], false, false, false) else ScanByte(ScanText(x[..|x| - 1]), x[|x| - 1])
  }

  lemma ScanSnoc(x: Bytes, b: byte)
    ensures ScanText(x + [b]) == ScanByte(ScanText(x), b)
  {
    hide ScanByte;
    assert (x + [b])[..|x|] == x;
  }

  ghost predicate Agrees(c: Scan, s: State) {
    c.quoted == s.quoted && c.escaped == s.escaped && c.space == s.space && (s.escaped ==> s.quoted)
        && (s.space ==> !s.quoted)
  }

  /** The output keeps every byte of every string and token, in order, and whitespace
      exactly where there was some. */
  lemma {:induction false} FilterPreserves(x: Bytes)
    requires Filter(Fresh(), x).ok
    ensures ScanText(Filter(Fresh(), x).out) == ScanText(x) && Agrees(ScanText(x), Filter(Fresh(), x).state)
  {
    hide StepByte, ScanByte;
    if x != [] {
      var n := |x| - 1;
      var f := Filter(Fresh(), x[..n]);
      if !f.ok {
        Stuck(f, x[n]);
      }
      FilterPreserves(x[..n]);
      StepPreserves(f, ScanText(x[..n]), x[n]);
    }
  }

  lemma StepPreserves(f: Filtered, c: Scan, b: byte)
    requires f.ok && StepByte(f, b).ok && Agrees(c, f.state) && ScanText(f.out) == c
    ensures ScanText(StepByte(f, b).out) == ScanByte(c, b) && Agrees(ScanByte(c, b), StepByte(f, b).state)
  {
    hide ScanText;
    ScanSnoc(f.out, SPACE);
    ScanSnoc(f.out, b);
  }

  /** No two whitespace bytes in a row outside strings, and only spaces: each byte outside a
      string is a space only after a kept byte, or first of all. */
  ghost predicate Collapsed(out: Bytes) {
    forall i :: 0 <= i < |out| && !ScanText(out[..i]).quoted && IsSpace(out[i]) ==>
        out[i] == SPACE && !ScanText(out[..i]).space
  }

  lemma {:induction false} FilterCollapses(x: Bytes)
    requires Filter(Fresh(), x).ok
    ensures Collapsed(Filter(Fresh(), x).out)
  {
    hide ScanText, StepByte;
    if x != [] {
      var n := |x| - 1;
      var f := Filter(Fresh(), x[..n]);
      if !f.ok {
        Stuck(f, x[n]);
      }
      FilterCollapses(x[..n]);
      FilterPreserves(x[..n]);
      StepCollapses(f, x[n]);
    }
  }

  lemma StepCollapses(f: Filtered, b: byte)
    requires f.ok && StepByte(f, b).ok && Collapsed(f.out) && Agrees(ScanText(f.out), f.state)
    ensures Collapsed(StepByte(f, b).out)
  {
    hide ScanText, TokenByte;
    var out := StepByte(f, b).out;
    forall i | 0 <= i < |out| && !ScanText(out[..i]).quoted && IsSpace(out[i])
      ensures out[i] == SPACE && !ScanText(out[..i]).space
    {
      if i < |f.out| {
        assert out[..i] == f.out[..i];
      } else {
        assert out[..i] == f.out;
      }
    }
  }

  /** Filtering what has been filtered changes nothing. */
  lemma {:induction false} FilterIdempotent(x: Bytes)
    requires Filter(Fresh(), x).ok
    ensures Filter(Fresh(), Filter(Fresh(), x).out) == Filter(Fresh(), x)
    ensures Filter(Fresh(), x).state.space ==> Filter(Fresh(), x).state.length == 0
  {
    hide StepByte;
    if x != [] {
      var n := |x| - 1;
      var f := Filter(Fresh(), x[..n]);
      if !f.ok {
        Stuck(f, x[n]);
      }
      FilterIdempotent(x[..n]);
      StepIdempotent(f, x[n]);
    }
  }

  lemma StepIdempotent(f: Filtered, b: byte)
    requires f.ok && StepByte(f, b).ok && (f.state.space ==> f.state.length == 0)
    requires Filter(Fresh(), f.out) == f
    ensures Filter(Fresh(), StepByte(f, b).out) == StepByte(f, b)
    ensures StepByte(f, b).state.space ==> StepByte(f, b).state.length == 0
  {
    hide Filter;
    FilterSnoc(Fresh(), f.out, SPACE);
    FilterSnoc(Fresh(), f.out, b);
  }

  // What is refused.

  /** Reading byte b after c ends a token: whitespace or punctuation outside strings, or a closing quote. */
  predicate Ends(c: Scan, b: byte) {
    if c.quoted then !c.escaped && b == QUOTE else IsSpace(b) || IsDelimiter(b)
  }

  /** Where the token in progress at the end of a text begins; a string begins at its quote. */
  function TokenStart(x: Bytes): (i: nat)
    ensures i <= |x|
  {
    if x == [] then 0
    else
      var before, b := x[..|x| - 1], x[|x| - 1];
      var c := ScanText(before);
      if Ends(c, b) then |x| else if !c.quoted && b == QUOTE then |x| - 1 else TokenStart(before)
  }

  /** Byte i, unless it is whitespace between tokens, is within the limit of its token's start. */
  predicate Fits(x: Bytes, i: nat)
    requires i < |x|
  {
    (!ScanText(x[..i]).quoted && IsSpace(x[i])) || i + 1 - TokenStart(x[..i]) <= LIMIT
  }

  ghost predicate TokensFit(x: Bytes) { forall i: nat :: i < |x| ==> Fits(x, i) }

  lemma FitsPrefix(x: Bytes, n: nat)
    requires n <= |x|
    ensures forall i: nat :: i < n ==> (Fits(x[..n], i) <==> Fits(x, i))
  {
    forall i: nat | i < n
      ensures Fits(x[..n], i) <==> Fits(x, i)
    {
      assert x[..n][..i] == x[..i];
    }
  }

  lemma FitsLast(x: Bytes)
    requires x != []
    ensures TokensFit(x) <==> TokensFit(x[..|x| - 1]) && Fits(x, |x| - 1)
  {
    hide Fits;
    FitsPrefix(x, |x| - 1);
  }

  /** The filter accepts exactly the texts in which no token exceeds the limit. */
  lemma {:induction false} FilterBounds(x: Bytes)
    ensures Filter(Fresh(), x).ok <==> TokensFit(x)
    ensures Filter(Fresh(), x).ok ==> Filter(Fresh(), x).state.length == |x| - TokenStart(x)
  {
    hide StepByte, Fits, ScanText, TokenStart;
    if x == [] {
      NoToken(x);
    } else {
      var n := |x| - 1;
      var f := Filter(Fresh(), x[..n]);
      FilterBounds(x[..n]);
      FitsLast(x);
      if f.ok {
        FilterPreserves(x[..n]);
        StepBounds(f, x);
      } else {
        Stuck(f, x[n]);
      }
    }
  }

  lemma NoToken(x: Bytes)
    requires x == []
    ensures TokenStart(x) == 0
  {
  }

  lemma StepBounds(f: Filtered, x: Bytes)
    requires x != [] && f.ok
    requires Agrees(ScanText(x[..|x| - 1]), f.state) && f.state.length == |x| - 1 - TokenStart(x[..|x| - 1])
    ensures StepByte(f, x[|x| - 1]).ok <==> Fits(x, |x| - 1)
    ensures StepByte(f, x[|x| - 1]).ok ==> StepByte(f, x[|x| - 1]).state.length == |x| - TokenStart(x)
  {
    hide ScanText;
  }

  // The reader.

  /** ovmAllocReader over a source whose reads return any nonempty part of what is left. */
  class Reader {
    var state: State
    var failed: bool
    var ended: bool
    /** What the underlying reader has yet to deliver. */
    var rest: Bytes
    ghost var consumed: Bytes
    ghost var delivered: Bytes

    /** Everything delivered so far is the filter's output for everything consumed so far. */
    ghost predicate Valid()
      reads this
    {
      && Filter(Fresh(), consumed) == Filtered(delivered, state, !failed)
      && (ended ==> rest == [])
    }

    constructor (source: Bytes)
      ensures Valid() && rest == source && consumed == [] && delivered == [] && !failed && !ended
    {
      state, failed, ended, rest := Fresh(), false, false, source;
      consumed, delivered := [], [];
    }

    /** filter: compacts p[..n] in place; the write position never passes the read position. */
    method FilterBuffer(p: array<byte>, n: nat) returns (written: nat)
      requires n <= p.Length && !failed
      modifies p, this`state, this`failed
      ensures written <= n
      ensures Filter(old(state), old(p[..n])) == Filtered(p[..written], state, !failed)
      ensures forall j :: n <= j < p.Length ==> p[j] == old(p[j])
    {
      hide Filter;
      ghost var input := p[..n];
      written := 0;
      FilterNothing(state);
      for i := 0 to n
        invariant written <= i && !failed
        invariant Filter(old(state), input[..i]) == Filtered(p[..written], state, true)
        invariant forall j :: i <= j < p.Length ==> p[j] == old(p[j])
      {
        var b := p[i];
        FilterSnoc(old(state), input[..i], b);
        assert input[..i + 1] == input[..i] + [b];
        if !state.quoted && IsSpace(b) {
          state := state.(length := 0);
          if !state.space {
            p[written] := SPACE;
            written := written + 1;
            state := state.(space := true);
          }
          continue;
        }
        state := state.(space := false);
        var t := TokenByte(state, b);
        if t.None? {
          state := state.(length := state.length + 1);
          failed := true;
          Broken(old(state), input, i + 1);
          return;
        }
        state := t.value;
        p[written] := b;
        written := written + 1;
      }
      assert input[..n] == input;
    }

    /** Read: fills part of p, going on while a read adds only to a whitespace run already
        delivered. done is an error or the end of the source. */
    method Read(p: array<byte>) returns (n: nat, done: bool)
      requires Valid()
      modifies this, p
      ensures Valid() && n <= p.Length && delivered == old(delivered) + p[..n]
      ensures consumed + rest == old(consumed + rest)
      ensures if p.Length == 0 then !done else (done <==> failed || ended) && (n > 0 || done)
    {
      hide Filter;
      n, done := 0, false;
      if p.Length == 0 {
        return;
      }
      while true
        invariant Valid() && n == 0 && delivered == old(delivered) && consumed + rest == old(consumed + rest)
        decreases |rest| + (if ended || failed then 0 else 1)
      {
        if failed || ended {
          return 0, true;
        }
        var got := Underlying(p);
        ghost var chunk := p[..got];
        n := FilterBuffer(p, got);
        FilterSplit(Fresh(), consumed, chunk);
        consumed, delivered := consumed + chunk, delivered + p[..n];
        if n != 0 || failed || ended {
          return n, failed || ended;
        }
      }
    }

    /** The underlying Read: some of the source, or its end. */
    method Underlying(p: array<byte>) returns (got: nat)
      requires p.Length > 0 && !ended
      modifies p, this`rest, this`ended
      ensures got <= p.Length && old(rest) == p[..got] + rest
      ensures got > 0 || ended
      ensures ended ==> rest == []
    {
      if rest == [] {
        ended := true;
        return 0;
      }
      var some: int := *;
      got := if 0 < some <= p.Length && some <= 32768 && some <= |rest| then some else 1;
      for i := 0 to got
        invariant forall j :: 0 <= j < i ==> p[j] == rest[j]
        modifies p
      {
        p[i] := rest[i];
      }
      assert p[..got] == rest[..got];
      rest := rest[got..];
      var last: bool := *;
      ended := last && rest == [];
    }
  }

  lemma FilterNothing(s: State)
    ensures Filter(s, []) == Filtered([], s, true)
  {
  }

  lemma {:induction false} Broken(s: State, x: Bytes, i: nat)
    requires i <= |x| && !Filter(s, x[..i]).ok
    ensures Filter(s, x) == Filter(s, x[..i])
    decreases |x| - i
  {
    hide Filter;
    if i == |x| {
      assert x[..i] == x;
    } else {
      FilterSnoc(s, x[..i], x[i]);
      assert x[..i + 1] == x[..i] + [x[i]];
      Stuck(Filter(s, x[..i]), x[i]);
      Broken(s, x, i + 1);
    }
  }
}
