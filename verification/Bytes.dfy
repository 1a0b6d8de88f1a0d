/** Bytes, big-endian numbers of a fixed width, two's complement and UTF-8 validity. */
module Bytes {

  type byte = b: int | 0 <= b < 256

  type int64 = i: int | -0x8000_0000_0000_0000 <= i < 0x8000_0000_0000_0000

  const U32_LIMIT: nat := 0x1_0000_0000

  /** The number of values `w` bytes can hold. */
  function Range(w: nat): (r: nat)
    ensures r > 0
  {
    if w == 0 then 1 else 256 * Range(w - 1)
  }

  /** The low `w` bytes of `n`, most significant first (`to_be_bytes` after a truncating cast). */
  function BE(n: nat, w: nat): (s: seq<byte>)
    ensures |s| == w
  {
    if w == 0 then [] else BE(n / 256, w - 1) + [n % 256]
  }

  /** The number a big-endian byte sequence spells (`from_be_bytes`). */
  function FromBE(s: seq<byte>): (n: nat)
    ensures n < Range(|s|)
  {
    if s == [] then 0 else 256 * FromBE(s[..|s| - 1]) + s[|s| - 1]
  }

  lemma {:induction false} FromBEofBE(n: nat, w: nat)
    requires n < Range(w)
    ensures FromBE(BE(n, w)) == n
  {
    if w > 0 {
      FromBEofBE(n / 256, w - 1);
      assert BE(n, w)[..w - 1] == BE(n / 256, w - 1);
    }
  }

  /** `Range` at the four widths the wire format uses. */
  lemma Widths()
    ensures Range(1) == 0x100 && Range(2) == 0x1_0000 && Range(4) == U32_LIMIT
    ensures Range(8) == 0x1_0000_0000_0000_0000
  {
    assert Range(3) == 0x100_0000;
    assert Range(5) == 0x100_0000_0000;
    assert Range(6) == 0x1_0000_0000_0000;
  }

  /** What one, two, four and eight bytes spell, written out. */
  lemma Spelled(s: seq<byte>)
    ensures |s| == 1 ==> FromBE(s) == s[0]
    ensures |s| == 2 ==> FromBE(s) == s[0] as int * 0x100 + s[1]
    ensures |s| == 4 ==> FromBE(s) == ((s[0] as int * 0x100 + s[1]) * 0x100 + s[2]) * 0x100 + s[3]
    ensures |s| == 8 ==>
      var n := ((s[0] as int * 0x100 + s[1]) * 0x100 + s[2]) * 0x100 + s[3];
      FromBE(s) == (((n * 0x100 + s[4]) * 0x100 + s[5]) * 0x100 + s[6]) * 0x100 + s[7]
  {
    assert FromBE(s[..0]) == 0;
    assert s[..|s|] == s;
    hide FromBE;
    if |s| == 1 || |s| == 2 {
      OneMore(s, 0);
      OneMore(s, |s| - 1);
    } else if |s| == 4 || |s| == 8 {
      Spelled(s[..|s| / 2]);
      OneMore(s, |s| / 2);
      OneMore(s, |s| / 2 + 1);
      OneMore(s, |s| - 2);
      OneMore(s, |s| - 1);
    }
  }

  lemma OneMore(s: seq<byte>, k: nat)
    requires k < |s|
    ensures FromBE(s[..k + 1]) == FromBE(s[..k]) * 0x100 + s[k]
  {
    assert s[..k + 1][..k] == s[..k];
  }

  /** The bytes of a number in four bytes, and in two. */
  lemma Quotients(n: nat)
    ensures BE(n, 2) == [n / 0x100 % 0x100, n % 0x100]
    ensures BE(n, 4) == [n / 0x100 / 0x100 / 0x100 % 0x100, n / 0x100 / 0x100 % 0x100, n / 0x100 % 0x100, n % 0x100]
  {
    var m := n / 0x100 / 0x100;
    assert BE(m / 0x100, 1) == [m / 0x100 % 0x100];
    assert BE(m, 2) == [m / 0x100 % 0x100, m % 0x100];
    assert BE(n / 0x100, 3) == BE(m, 2) + [n / 0x100 % 0x100];
    assert BE(n / 0x100, 1) == [n / 0x100 % 0x100];
  }

  /** Two's complement of `i` in `w` bytes (`i as i8/i16/i32/i64` then `to_be_bytes`). */
  function SignedBE(i: int, w: nat): (s: seq<byte>)
    requires 0 <= i + Range(w)
    ensures |s| == w
  {
    BE(if i < 0 then i + Range(w) else i, w)
  }

  /** Sign extension of a big-endian two's complement number. */
  function FromSignedBE(s: seq<byte>): (i: int)
    ensures 0 <= 2 * i + Range(|s|) && 2 * i < Range(|s|)
  {
    var n := FromBE(s);
    if 2 * n < Range(|s|) then n else n - Range(|s|)
  }

  lemma FromSignedBEofSignedBE(i: int, w: nat)
    requires 0 <= 2 * i + Range(w) && 2 * i < Range(w)
    ensures FromSignedBE(SignedBE(i, w)) == i
  {
    FromBEofBE(if i < 0 then i + Range(w) else i, w);
  }

  /** A UTF-8 continuation byte in the range `lo..=hi`. */
  predicate Cont(s: seq<byte>, at: nat, lo: byte, hi: byte) {
    at < |s| && lo <= s[at] <= hi
  }

  /** Length of the well-formed UTF-8 sequence `s` starts with (Unicode table 3-7), 0 if none. */
  function Utf8Step(s: seq<byte>): (n: nat)
    requires s != []
    ensures n <= |s|
  {
    var b := s[0];
    if b < 0x80 then 1
    else if 0xC2 <= b <= 0xDF && Cont(s, 1, 0x80, 0xBF) then 2
    else if 0xE0 <= b <= 0xEF
      && Cont(s, 1, if b == 0xE0 then 0xA0 else 0x80, if b == 0xED then 0x9F else 0xBF)
      && Cont(s, 2, 0x80, 0xBF) then 3
    else if 0xF0 <= b <= 0xF4
      && Cont(s, 1, if b == 0xF0 then 0x90 else 0x80, if b == 0xF4 then 0x8F else 0xBF)
      && Cont(s, 2, 0x80, 0xBF) && Cont(s, 3, 0x80, 0xBF) then 4
    else 0
  }

  /** What `String::from_utf8` accepts. */
  predicate Utf8(s: seq<byte>) {
    s == [] || (Utf8Step(s) > 0 && Utf8(s[Utf8Step(s)..]))
  }

  /** The bytes of a Rust `String`. */
  type Text = s: seq<byte> | Utf8(s) witness []

  // ---- sequences ----

  lemma Assoc<T>(a: seq<T>, b: seq<T>, c: seq<T>)
    ensures a + (b + c) == a + b + c
  {
  }

  lemma DropFirst<T>(a: seq<T>, k: nat, rest: seq<T>)
    requires k < |a|
    ensures (a[k..] + rest)[0] == a[k] && (a[k..] + rest)[1..] == a[k + 1..] + rest
  {
  }
}
