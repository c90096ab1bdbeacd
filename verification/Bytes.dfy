/** Octets, fixed-width integer fields and in-place field updates. */
module Bytes {
  type u8 = x: int | 0 <= x < 256

  datatype Option<+T> = None | Some(value: T)

  /** Little-endian fields, as a C store to a `uint16_t` or `uint32_t` leaves them (the value is truncated). */
  function Le16(n: nat): (s: seq<u8>)
    ensures |s| == 2
  {
    [n % 256, n / 256 % 256]
  }

  function Le32(n: nat): (s: seq<u8>)
    ensures |s| == 4
  {
    [n % 256, n / 256 % 256, n / 65536 % 256, n / 16777216 % 256]
  }

  /** Big-endian 32-bit field: `struct.pack('>L', n)`. */
  function Be32(n: nat): (s: seq<u8>)
    requires n < 0x1_0000_0000
    ensures |s| == 4
  {
    [n / 16777216, n / 65536 % 256, n / 256 % 256, n % 256]
  }

  function U16(s: seq<u8>, at: nat): nat
    requires at + 2 <= |s|
  {
    var lo: int, hi: int := s[at], s[at + 1];
    lo + 256 * hi
  }

  function U32(s: seq<u8>, at: nat): nat
    requires at + 4 <= |s|
  {
    U16(s, at) + 65536 * U16(s, at + 2)
  }

  lemma Le16Inverse(n: nat)
    ensures U16(Le16(n), 0) == n % 65536
  {
    var q, r := n / 65536, n % 65536;
    assert n == 65536 * q + r;
    assert n / 256 == 256 * q + r / 256;
    assert (n / 256) % 256 == r / 256;
    assert n % 256 == r % 256;
  }

  lemma Le32Inverse(n: nat)
    requires n < 0x1_0000_0000
    ensures U32(Le32(n), 0) == n
  {
    var a := n / 256;
    var b := n / 65536;
    var c := n / 16777216;
    assert b == a / 256 && c == b / 256;
    assert c % 256 == c;
  }

  /** A 32-bit store of a 16-bit value is the 16-bit store followed by two zero bytes. */
  lemma Le32OfShort(n: nat)
    requires n < 65536
    ensures Le32(n) == Le16(n) + [0, 0]
  {
  }

  function Zeros(n: nat): (s: seq<u8>)
    ensures |s| == n && forall i :: 0 <= i < n ==> s[i] == 0
  {
    seq(n, i => 0)
  }

  /** `s` with the bytes from `at` on overwritten by `field`. */
  function Patch(s: seq<u8>, at: nat, field: seq<u8>): (r: seq<u8>)
    requires at + |field| <= |s|
    ensures |r| == |s|
    ensures r[at..at + |field|] == field
    ensures forall i :: 0 <= i < |s| && !(at <= i < at + |field|) ==> r[i] == s[i]
  {
    s[..at] + field + s[at + |field|..]
  }

  /** Field reads depend only on the bytes of the field. */
  lemma FieldLocal(s: seq<u8>, t: seq<u8>, at: nat, from: nat, width: nat)
    requires at + width <= |s| && from + width <= |t|
    requires s[at..at + width] == t[from..from + width]
    ensures width >= 2 ==> U16(s, at) == U16(t, from)
    ensures width >= 4 ==> U32(s, at) == U32(t, from)
  {
    var a, b := s[at..at + width], t[from..from + width];
    if width >= 2 { assert a[0] == b[0] && a[1] == b[1]; }
    if width >= 4 { assert a[2] == b[2] && a[3] == b[3]; }
  }

  lemma Assoc<T>(a: seq<T>, b: seq<T>, c: seq<T>)
    ensures (a + b) + c == a + (b + c)
  {
  }

  function Concat<T>(ss: seq<seq<T>>): seq<T> {
    if ss == [] then [] else ss[0] + Concat(ss[1..])
  }
}
