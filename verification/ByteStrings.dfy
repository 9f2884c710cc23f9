/** Byte strings as the program's databases, tries and record streams see them:
    the order of bytes.Compare, 32-byte hashes and big-endian integers. */
module ByteStrings {

  type byte = x: int | 0 <= x < 256
  type Bytes = seq<byte>

  /** A 32-byte hash. */
  type Hash = b: Bytes | |b| == 32 witness seq(32, _ => 0)

  /** Keccak-256, a parameter of every theorem that mentions it. */
  type Hasher = Bytes -> Hash

  /** The zero hash. */
  function NoHash(): Hash { seq(32, _ => 0) }

  datatype Option<+T> = None | Some(value: T)

  /** bytes.Compare(a, b) < 0. */
  predicate Less(a: Bytes, b: Bytes)
    decreases |a|
  {
    b != [] && (a == [] || a[0] < b[0] || (a[0] == b[0] && Less(a[1..], b[1..])))
  }

  lemma {:induction false} LessTransitive(a: Bytes, b: Bytes, c: Bytes)
    requires Less(a, b) && Less(b, c)
    ensures Less(a, c)
    decreases |a|
  {
    if a != [] && a[0] == b[0] == c[0] {
      LessTransitive(a[1..], b[1..], c[1..]);
    }
  }

  /** Exactly one of <, ==, > holds. */
  lemma {:induction false} LessTrichotomy(a: Bytes, b: Bytes)
    ensures Less(a, b) || a == b || Less(b, a)
    ensures !(Less(a, b) && Less(b, a))
    ensures a == b ==> !Less(a, b)
    decreases |a|
  {
    if a != [] && b != [] && a[0] == b[0] {
      LessTrichotomy(a[1..], b[1..]);
      assert a == [a[0]] + a[1..] && b == [b[0]] + b[1..];
    }
  }

  function Power256(k: nat): (r: nat)
    ensures r > 0
  {
    if k == 0 then 1 else 256 * Power256(k - 1)
  }

  /** The shortest big-endian form: zero is the empty string. */
  function BigEndian(n: nat): Bytes {
    if n == 0 then [] else BigEndian(n / 256) + [n % 256]
  }

  function FromBigEndian(b: Bytes): nat {
    if b == [] then 0 else 256 * FromBigEndian(b[..|b| - 1]) + b[|b| - 1]
  }

  lemma {:induction false} BigEndianInverse(n: nat)
    ensures FromBigEndian(BigEndian(n)) == n
    ensures n > 0 ==> BigEndian(n) != [] && BigEndian(n)[0] != 0
  {
    if n > 0 {
      BigEndianInverse(n / 256);
      var b := BigEndian(n);
      assert b[..|b| - 1] == BigEndian(n / 256);
    }
  }

  lemma LastDigit(front: nat, b: byte)
    ensures (256 * front + b) / 256 == front && (256 * front + b) % 256 == b
  {
  }

  /** Big-endian strings without a leading zero are exactly the shortest forms. */
  lemma {:induction false} FromBigEndianInverse(b: Bytes)
    requires b == [] || b[0] != 0
    ensures BigEndian(FromBigEndian(b)) == b
  {
    if b != [] {
      var front := b[..|b| - 1];
      FromBigEndianInverse(front);
      assert front == [] ==> FromBigEndian(front) == 0;
      if front != [] {
        BigEndianInverse(FromBigEndian(front));
      }
      var n := FromBigEndian(b);
      LastDigit(FromBigEndian(front), b[|b| - 1]);
      if front == [] {
        assert b == [b[0]];
      }
      assert b == front + [b[|b| - 1]];
    }
  }

  lemma {:induction false} FromBigEndianBound(b: Bytes)
    ensures FromBigEndian(b) < Power256(|b|)
  {
    if b != [] {
      FromBigEndianBound(b[..|b| - 1]);
    }
  }

  lemma {:induction false} BigEndianLength(n: nat, k: nat)
    ensures |BigEndian(n)| <= k <==> n < Power256(k)
    decreases k
  {
    if n > 0 && k > 0 {
      BigEndianLength(n / 256, k - 1);
    }
  }

  /** binary.BigEndian.PutUint64 and its kind: n in exactly k bytes. */
  function Fixed(n: nat, k: nat): (b: Bytes)
    ensures |b| == k
  {
    if k == 0 then [] else Fixed(n / 256, k - 1) + [n % 256]
  }

  lemma {:induction false} FixedInverse(n: nat, k: nat)
    requires n < Power256(k)
    ensures FromBigEndian(Fixed(n, k)) == n
    decreases k
  {
    if k > 0 {
      FixedInverse(n / 256, k - 1);
      assert Fixed(n, k)[..k - 1] == Fixed(n / 256, k - 1);
    }
  }

  lemma {:induction false} FromFixedInverse(b: Bytes)
    ensures Fixed(FromBigEndian(b), |b|) == b
  {
    if b != [] {
      var front := b[..|b| - 1];
      FromFixedInverse(front);
      var n := FromBigEndian(b);
      LastDigit(FromBigEndian(front), b[|b| - 1]);
      assert b == front + [b[|b| - 1]];
    }
  }
}
