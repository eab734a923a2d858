/** C-level values: bytes, NUL-free strings, `size_t` arithmetic, little-endian ints and flat memory. */
module Bytes {
  type byte = x: int | 0 <= x < 256

  predicate NoNul(s: seq<byte>) {
    forall k | 0 <= k < |s| :: s[k] != 0
  }

  /** The bytes of a C string, without its terminator. */
  type CStr = s: seq<byte> | NoNul(s)

  const SIZE_RANGE: nat := 0x1_0000_0000_0000_0000

  /** The largest object `malloc` can return (PTRDIFF_MAX). */
  const OBJECT_MAX: nat := 0x7FFF_FFFF_FFFF_FFFF

  const INT_MAX: nat := 0x7FFF_FFFF

  /** `a + b` on `size_t`. */
  function SizeAdd(a: nat, b: nat): nat { (a + b) % SIZE_RANGE }

  /** `a - b` on `size_t`: wraps round when `b` is the larger. */
  function SizeSub(a: nat, b: nat): nat { (a - b) % SIZE_RANGE }

  function Min(a: nat, b: nat): nat { if a <= b then a else b }

  // ---------------------------------------------------------------- 32-bit ints in memory

  function EncodeInt(n: int): (b: seq<byte>)
    requires -0x8000_0000 <= n <= INT_MAX
    ensures |b| == 4
  {
    var u := if n < 0 then n + 0x1_0000_0000 else n;
    [u % 256, u / 256 % 256, u / 65536 % 256, u / 16777216]
  }

  function DecodeInt(b: seq<byte>): int
    requires |b| == 4
  {
    var u: int := b[0] as int + 256 * b[1] as int + 65536 * b[2] as int + 16777216 * b[3] as int;
    if u > INT_MAX then u - 0x1_0000_0000 else u
  }

  lemma IntRoundTrip(n: int)
    requires -0x8000_0000 <= n <= 0x7FFF_FFFF
    ensures DecodeInt(EncodeInt(n)) == n
  {
    var u := if n < 0 then n + 0x1_0000_0000 else n;
    assert u == u % 256 + 256 * (u / 256);
    assert u / 256 == u / 256 % 256 + 256 * (u / 65536);
    assert u / 65536 == u / 65536 % 256 + 256 * (u / 16777216);
  }

  // ---------------------------------------------------------------- C strings in fixed-width fields

  function Zeros(n: nat): (z: seq<byte>)
    ensures |z| == n && forall k | 0 <= k < n :: z[k] == 0
  {
    seq(n, _ => 0)
  }

  /** The C string that starts a field: everything before its first NUL (all of it when there is none). */
  function UpToNul(d: seq<byte>): (s: CStr)
    ensures |s| <= |d|
  {
    if d == [] || d[0] == 0 then [] else [d[0]] + UpToNul(d[1..])
  }

  /** `s` zero-padded to `n` bytes, as `calloc` + `memcpy` and `strncpy` leave it. */
  function Pad(s: CStr, n: nat): (d: seq<byte>)
    requires |s| <= n
    ensures |d| == n
  {
    s + Zeros(n - |s|)
  }

  lemma {:induction false} UpToNulPrefix(s: CStr, rest: seq<byte>)
    requires rest == [] || rest[0] == 0
    ensures UpToNul(s + rest) == s
  {
    if s == [] {
      assert s + rest == rest;
    } else {
      assert (s + rest)[1..] == s[1..] + rest;
      UpToNulPrefix(s[1..], rest);
    }
  }

  lemma UpToNulPad(s: CStr, n: nat)
    requires |s| <= n
    ensures UpToNul(Pad(s, n)) == s
  {
    UpToNulPrefix(s, Zeros(n - |s|));
  }

  /** `strncmp(d, s, n) == 0`, character by character: stops at the first NUL. */
  predicate StrncmpEq(d: seq<byte>, s: CStr, n: nat)
    requires n <= |d|
  {
    n == 0 ||
    (d[0] == (if s == [] then 0 else s[0]) &&
     (d[0] == 0 || StrncmpEq(d[1..], s[1..], n - 1)))
  }

  /** `strcmp(d, s) == 0` where `d` is all the memory from the field on. */
  predicate StrcmpEq(d: seq<byte>, s: CStr) {
    |s| < |d| && d[..|s|] == s && d[|s|] == 0
  }

  /** The bounded comparison of a padded field is equality of whole strings, however long the query is. */
  lemma {:induction false} StrncmpIsEquality(s: CStr, n: nat, query: CStr)
    requires |s| < n
    ensures StrncmpEq(Pad(s, n), query, n) <==> s == query
  {
    if s == [] {
      assert Pad(s, n)[0] == 0;
    } else {
      assert Pad(s, n)[0] == s[0];
      if query != [] && query[0] == s[0] {
        assert Pad(s, n)[1..] == Pad(s[1..], n - 1);
        StrncmpIsEquality(s[1..], n - 1, query[1..]);
        assert s == [s[0]] + s[1..] && query == [query[0]] + query[1..];
      }
    }
  }

  lemma StrcmpIsEquality(s: CStr, n: nat, rest: seq<byte>, query: CStr)
    requires |s| < n
    ensures StrcmpEq(Pad(s, n) + rest, query) <==> s == query
  {
    var d := Pad(s, n) + rest;
    assert d[..|s|] == s && d[|s|] == 0;
    assert forall k | 0 <= k < |s| :: d[k] == s[k] != 0;
    if StrcmpEq(d, query) {
      assert forall k | 0 <= k < |query| :: d[k] == query[k] != 0 by {
        assert forall k | 0 <= k < |query| :: d[k] == d[..|query|][k];
      }
    }
  }

  /** Only the empty string matches memory that starts with a NUL. */
  lemma StrcmpAtNul(d: seq<byte>, s: CStr)
    requires d != [] && d[0] == 0 && s != []
    ensures !StrcmpEq(d, s)
  {
  }

  // ---------------------------------------------------------------- flat memory

  /** `memcpy(mem + at, w, |w|)`. */
  function Splice(mem: seq<byte>, at: nat, w: seq<byte>): (r: seq<byte>)
    requires at + |w| <= |mem|
    ensures |r| == |mem|
  {
    mem[..at] + w + mem[at + |w|..]
  }

  lemma SpliceAt(mem: seq<byte>, at: nat, w: seq<byte>, k: nat)
    requires at + |w| <= |mem| && k < |mem|
    ensures Splice(mem, at, w)[k] == if at <= k < at + |w| then w[k - at] else mem[k]
  {
  }

  /** A range that the copy does not touch reads as before. */
  lemma SpliceOutside(mem: seq<byte>, at: nat, w: seq<byte>, lo: nat, hi: nat)
    requires at + |w| <= |mem| && lo <= hi <= |mem|
    requires hi <= at || at + |w| <= lo
    ensures Splice(mem, at, w)[lo..hi] == mem[lo..hi]
  {
  }

  /** The copied range reads as what was copied. */
  lemma SpliceInside(mem: seq<byte>, at: nat, w: seq<byte>)
    requires at + |w| <= |mem|
    ensures Splice(mem, at, w)[at..at + |w|] == w
  {
  }

  lemma SliceOfSlice(mem: seq<byte>, lo: nat, hi: nat, from: nat, to: nat)
    requires lo <= hi <= |mem| && from <= to <= hi - lo
    ensures mem[lo..hi][from..to] == mem[lo + from..lo + to]
  {
    forall k | 0 <= k < to - from
      ensures mem[lo..hi][from..to][k] == mem[lo + from..lo + to][k]
    {
    }
  }
}
