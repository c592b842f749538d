/** Bytes, the four-byte big-endian length prefix, and the byte order Rust
    gives to arrays. */
module Bytes {
  type byte = x: int | 0 <= x < 256

  type bytes = seq<byte>

  const U32_MODULUS: nat := 0x1_0000_0000

  /** `(n as u32).to_be_bytes()`: the cast drops everything above 32 bits. */
  function U32ToBytes(n: nat): bytes {
    [(n / 0x100_0000) % 256, (n / 0x1_0000) % 256, (n / 0x100) % 256, n % 256]
  }

  /** `u32::from_be_bytes`. */
  function BytesToU32(b: bytes): nat
    requires |b| == 4
  {
    b[0] as int * 0x100_0000 + b[1] as int * 0x1_0000 + b[2] as int * 0x100 + b[3]
  }

  /** A number is its low byte and the rest. */
  lemma LowByte(n: nat)
    ensures n == 256 * (n / 256) + n % 256 && 0 <= n % 256 < 256
  {
  }

  lemma ShiftsCompose(n: nat)
    ensures n / 0x1_0000 == n / 0x100 / 0x100 && n / 0x100_0000 == n / 0x100 / 0x100 / 0x100
  {
  }

  lemma ModuloIs(n: nat, q: nat, d: nat)
    requires n == U32_MODULUS * q + d && d < U32_MODULUS
    ensures n % U32_MODULUS == d
  {
  }

  lemma U32Truncates(n: nat)
    ensures BytesToU32(U32ToBytes(n)) == n % U32_MODULUS
  {
    ShiftsCompose(n);
    var a := n / 256;
    var b := a / 256;
    var c := b / 256;
    LowByte(n);
    LowByte(a);
    LowByte(b);
    LowByte(c);
    ModuloIs(n, c / 256, c % 256 * 0x100_0000 + b % 256 * 0x1_0000 + a % 256 * 0x100 + n % 256);
  }

  lemma U32Injective(m: nat, n: nat)
    requires m < U32_MODULUS && n < U32_MODULUS && U32ToBytes(m) == U32ToBytes(n)
    ensures m == n
  {
    U32Truncates(m);
    U32Truncates(n);
    Reduced(m);
    Reduced(n);
  }

  lemma Reduced(n: nat)
    requires n < U32_MODULUS
    ensures n % U32_MODULUS == n
  {
  }

  lemma U32BytesRoundTrip(b: bytes)
    requires |b| == 4
    ensures BytesToU32(b) < U32_MODULUS
    ensures U32ToBytes(BytesToU32(b)) == b
  {
    var n := BytesToU32(b);
    assert n / 0x100 == b[0] as int * 0x1_0000 + b[1] as int * 0x100 + b[2];
    assert n / 0x1_0000 == b[0] as int * 0x100 + b[1];
    assert n / 0x100_0000 == b[0];
  }

  /** Rust's `<=` on byte arrays: lexicographic. */
  predicate LexLe(a: bytes, b: bytes) {
    a == [] || (b != [] && (a[0] < b[0] || (a[0] == b[0] && LexLe(a[1..], b[1..]))))
  }

  /** The order is total and antisymmetric: two different arrays compare one
      way round, and only one. */
  lemma {:induction false} LexTotal(a: bytes, b: bytes)
    ensures LexLe(a, b) || LexLe(b, a)
    ensures LexLe(a, b) && LexLe(b, a) <==> a == b
  {
    if a != [] && b != [] {
      LexTotal(a[1..], b[1..]);
      assert a == [a[0]] + a[1..] && b == [b[0]] + b[1..];
    }
  }

  /** The first `i` bytes agree, and there `a` is over or has the smaller one. */
  predicate BelowAt(a: bytes, b: bytes, i: nat) {
    i <= |a| && i <= |b| && a[..i] == b[..i] && (i == |a| || (i < |b| && a[i] < b[i]))
  }

  /** And it is decided by the first difference. */
  lemma {:induction false} LexLeExactlyWhen(a: bytes, b: bytes)
    ensures LexLe(a, b) <==> exists i: nat :: BelowAt(a, b, i)
  {
    if a == [] || b == [] {
      assert a == [] ==> BelowAt(a, b, 0);
    } else {
      LexLeExactlyWhen(a[1..], b[1..]);
      if LexLe(a, b) {
        if a[0] < b[0] {
          assert BelowAt(a, b, 0);
        } else {
          var i: nat :| BelowAt(a[1..], b[1..], i);
          assert a[..i + 1] == [a[0]] + a[1..][..i] && b[..i + 1] == [b[0]] + b[1..][..i];
          assert BelowAt(a, b, i + 1);
        }
      }
      if i: nat :| BelowAt(a, b, i) {
        if i > 0 {
          assert a[0] == a[..i][0] == b[..i][0] == b[0];
          assert a[1..][..i - 1] == a[..i][1..] && b[1..][..i - 1] == b[..i][1..];
          assert BelowAt(a[1..], b[1..], i - 1);
        }
      }
    }
  }
}
