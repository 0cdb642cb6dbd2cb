/** Bytes, and the variable-length integers of picoquic/intformat.c and picoquic/util.c
    (section 16 of RFC 9000). A pointer into a buffer is an index; a pointer to its end is a limit. */
module Varint {
  import opened Wrappers

  type byte = x: int | 0 <= x < 0x100

  const TWO_62: int := 0x4000_0000_0000_0000
  const TWO_64: int := 0x1_0000_0000_0000_0000

  type u64 = x: int | 0 <= x < TWO_64

  // ----- Big-endian integers

  function FromBigEndian(s: seq<byte>): nat {
    if s == [] then 0 else FromBigEndian(s[..|s| - 1]) * 256 + s[|s| - 1] as int
  }

  function BigEndian(v: nat, k: nat): (s: seq<byte>)
    ensures |s| == k
  {
    if k == 0 then [] else BigEndian(v / 256, k - 1) + [v % 256]
  }

  function Pow256(k: nat): (p: nat)
    ensures p > 0
  {
    if k == 0 then 1 else Pow256(k - 1) * 256
  }

  lemma Pow256Values()
    ensures Pow256(0) == 1 && Pow256(1) == 0x100 && Pow256(2) == 0x1_0000
    ensures Pow256(3) == 0x100_0000 && Pow256(4) == 0x1_0000_0000
    ensures Pow256(7) == 0x100_0000_0000_0000 && Pow256(8) == TWO_64
  {
  }

  lemma {:induction false} FromBigEndianHead(s: seq<byte>)
    requires s != []
    ensures FromBigEndian(s) == s[0] * Pow256(|s| - 1) + FromBigEndian(s[1..])
    ensures FromBigEndian(s[1..]) < Pow256(|s| - 1)
  {
    if |s| > 1 {
      var t := s[..|s| - 1];
      FromBigEndianHead(t);
      assert t[1..] == s[1..][..|s| - 2];
      Distribute(s[0], Pow256(|s| - 2), FromBigEndian(t[1..]));
    }
  }

  lemma Distribute(a: nat, p: nat, x: nat)
    ensures (a * p + x) * 256 == a * (p * 256) + x * 256
  {
  }

  lemma {:induction false} FromBigEndianInverse(v: nat, k: nat)
    requires v < Pow256(k)
    ensures FromBigEndian(BigEndian(v, k)) == v
  {
    if k > 0 {
      FromBigEndianInverse(v / 256, k - 1);
      var s := BigEndian(v, k);
      assert s[..k - 1] == BigEndian(v / 256, k - 1);
    }
  }

  lemma {:induction false} BigEndianInverse(s: seq<byte>)
    ensures BigEndian(FromBigEndian(s), |s|) == s
  {
    if s != [] {
      BigEndianInverse(s[..|s| - 1]);
      assert s == s[..|s| - 1] + [s[|s| - 1]];
    }
  }

  // ----- The encoding

  function EncodedLength(n: nat): (k: nat)
    ensures k == 1 || k == 2 || k == 4 || k == 8
  {
    if n < 16384 then
      if n < 64 then 1 else 2
    else if n < 1073741824 then 4 else 8
  }

  function DecodedLength(first: byte): (k: nat)
    ensures k == 1 || k == 2 || k == 4 || k == 8
  {
    match first / 64
    case 0 => 1
    case 1 => 2
    case 2 => 4
    case _ => 8
  }

  /** The value that a field of `k` bytes must hold so that its two top bits announce `k`;
      a field of eight bytes keeps only the low 62 bits of its payload. */
  function Marked(n: nat, k: nat): nat {
    match k
    case 1 => n
    case 2 => 0x4000 + n
    case 4 => 0x8000_0000 + n
    case _ => 0xC000_0000_0000_0000 + n % TWO_62
  }

  function MarkOf(k: nat): byte {
    match k
    case 1 => 0x00
    case 2 => 0x40
    case 4 => 0x80
    case _ => 0xC0
  }

  function Encoding(n: nat): (s: seq<byte>)
    ensures |s| == EncodedLength(n)
  {
    BigEndian(Marked(n, EncodedLength(n)), EncodedLength(n))
  }

  /** The integer at the head of `s` and its encoded length, or None if `s` is too short. */
  function Decoding(s: seq<byte>): (r: Option<(nat, nat)>) {
    if s == [] || DecodedLength(s[0]) > |s| then None
    else
      var k := DecodedLength(s[0]);
      Some((FromBigEndian([s[0] % 64] + s[1..k]), k))
  }

  // ----- Properties

  /** The encoder writes exactly the low 62 bits: values at or above 2^62 do not survive. */
  lemma EncodingRoundTrip(n: nat, rest: seq<byte>)
    requires n < TWO_64
    ensures Decoding(Encoding(n) + rest) == Some((n % TWO_62, EncodedLength(n)))
  {
    var k := EncodedLength(n);
    var s := Encoding(n);
    EncodingHead(n);
    assert (s + rest)[0] == s[0];
    assert (s + rest)[1..k] == s[1..];
  }

  /** The two top bits of an encoding announce its length, and the other bits are the value. */
  lemma EncodingHead(n: nat)
    ensures var s := Encoding(n);
            DecodedLength(s[0]) == |s| && FromBigEndian([s[0] % 64] + s[1..]) == n % TWO_62
  {
    var k := EncodedLength(n);
    var s := Encoding(n);
    var t := [s[0] % 64] + s[1..];
    Pow256Values();
    FromBigEndianInverse(Marked(n, k), k);
    FromBigEndianHead(s);
    FromBigEndianHead(t);
    assert t[1..] == s[1..];
    HeadArithmetic(n, k, s[0], FromBigEndian(s[1..]));
  }

  lemma HeadArithmetic(n: nat, k: nat, head: byte, tail: nat)
    requires k == EncodedLength(n)
    requires Marked(n, k) == head * Pow256(k - 1) + tail && tail < Pow256(k - 1)
    ensures DecodedLength(head) == k && head % 64 * Pow256(k - 1) + tail == n % TWO_62
  {
    Pow256Values();
    if k == 1 {
    } else if k == 2 {
      assert head / 64 == 1;
    } else if k == 4 {
      assert head / 64 == 2;
    } else {
      assert head / 64 == 3;
    }
  }

  lemma EncodingRoundTripIff(n: nat, rest: seq<byte>)
    requires n < TWO_64
    ensures Decoding(Encoding(n) + rest) == Some((n, EncodedLength(n))) <==> n < TWO_62
  {
    EncodingRoundTrip(n, rest);
  }

  lemma DecodingBound(s: seq<byte>)
    requires Decoding(s).Some?
    ensures Decoding(s).value.0 < TWO_62
    ensures 1 <= Decoding(s).value.1 <= |s|
  {
    var t := [s[0] % 64] + s[1..DecodedLength(s[0])];
    Pow256Values();
    FromBigEndianHead(t);
  }

  lemma DecodingPrefix(s: seq<byte>, rest: seq<byte>)
    requires Decoding(s).Some?
    ensures Decoding(s + rest) == Decoding(s)
  {
    var k := DecodedLength(s[0]);
    assert (s + rest)[1..k] == s[1..k];
  }

  /** A field is the shortest encoding of its value exactly when it equals `Encoding`. */
  lemma MinimalEncoding(s: seq<byte>)
    requires Decoding(s).Some?
    ensures var (n, k) := Decoding(s).value;
            EncodedLength(n) <= k && (EncodedLength(n) == k <==> s[..k] == Encoding(n))
  {
    hide FromBigEndian, BigEndian, Pow256, Marked, DecodedLength;
    var (n, k) := Decoding(s).value;
    var u := s[..k];
    var t := [s[0] % 64] + s[1..k];
    assert u[1..] == t[1..] == s[1..k];
    FromBigEndianHead(t);
    FromBigEndianHead(u);
    BigEndianInverse(u);
    MarkedFromHead(n, k, s[0], FromBigEndian(s[1..k]));
  }

  lemma MarkedFromHead(n: nat, k: nat, head: byte, tail: nat)
    requires k == DecodedLength(head) && tail < Pow256(k - 1)
    requires n == head % 64 * Pow256(k - 1) + tail
    ensures EncodedLength(n) <= k
    ensures EncodedLength(n) == k ==> Marked(n, k) == head * Pow256(k - 1) + tail
  {
    Pow256Values();
    if k == 1 {
      assert n == head;
    } else if k == 2 {
      assert n == (head - 64) * 0x100 + tail;
    } else if k == 4 {
      assert n == (head - 128) * 0x100_0000 + tail;
    } else {
      assert n == (head - 192) * 0x100_0000_0000_0000 + tail;
    }
  }

  lemma EncodedLengthMonotone(a: nat, b: nat)
    requires a <= b
    ensures EncodedLength(a) <= EncodedLength(b)
  {
  }

  /** The byte `(uint8_t)(v >> 8 * i)`. */
  function ByteAt(v: nat, i: nat): byte {
    if i == 0 then v % 256 else ByteAt(v / 256, i - 1)
  }

  lemma {:induction false} BigEndianBytes(v: nat, k: nat, i: nat)
    requires i < k
    ensures BigEndian(v, k)[k - 1 - i] == ByteAt(v, i)
  {
    if i > 0 {
      BigEndianBytes(v / 256, k - 1, i - 1);
    }
  }

  /** A difference in the bits from `8 * i` upwards, `d` units of 256^i, only shows there. */
  lemma {:induction false} ByteAtLow(a: nat, b: nat, d: int, i: nat)
    requires a == b + d * Pow256(i)
    ensures forall j :: 0 <= j < i ==> ByteAt(a, j) == ByteAt(b, j)
    ensures ByteAt(a, i) == (ByteAt(b, i) + d) % 256
  {
    if i > 0 {
      var p := d * Pow256(i - 1);
      assert a == b + p * 256;
      assert a % 256 == b % 256 && a / 256 == b / 256 + p;
      ByteAtLow(a / 256, b / 256, d, i - 1);
      forall j | 0 <= j < i
        ensures ByteAt(a, j) == ByteAt(b, j)
      {
        if j > 0 {
          assert ByteAt(a / 256, j - 1) == ByteAt(b / 256, j - 1);
        }
      }
    }
  }

  /** The high byte of a field of `i + 1` bytes. */
  lemma {:induction false} ByteAtTop(v: nat, i: nat)
    requires v < Pow256(i + 1)
    ensures ByteAt(v, i) * Pow256(i) <= v < (ByteAt(v, i) + 1) * Pow256(i)
  {
    if i > 0 {
      ByteAtTop(v / 256, i - 1);
      ScaleBounds(v, ByteAt(v, i), Pow256(i - 1));
    }
  }

  lemma ScaleBounds(v: nat, b: nat, p: nat)
    requires b * p <= v / 256 < (b + 1) * p
    ensures b * (p * 256) <= v < (b + 1) * (p * 256)
  {
  }

  lemma FactorLess(b: int, c: int, p: nat)
    requires b * p < c * p
    ensures b < c
  {
  }

  /** Marking a field only changes its top byte. */
  lemma MarkedBytes(n: nat)
    requires n < TWO_64
    ensures var k := EncodedLength(n);
            && (forall j :: 0 <= j < k - 1 ==> ByteAt(Marked(n, k), j) == ByteAt(n, j))
            && ByteAt(Marked(n, k), k - 1) == MarkOf(k) + ByteAt(n, k - 1) % 64
  {
    var k := EncodedLength(n);
    Pow256Values();
    if k == 8 {
      MarkedLong(n, ByteAt(n, 7));
    } else {
      MarkedShort(n, k, ByteAt(n, k - 1));
    }
  }

  lemma MarkedLong(n: nat, b: byte)
    requires n < TWO_64 && b == ByteAt(n, 7)
    ensures forall j :: 0 <= j < 7 ==> ByteAt(Marked(n, 8), j) == ByteAt(n, j)
    ensures ByteAt(Marked(n, 8), 7) == 0xC0 + b % 64
  {
    Pow256Values();
    ByteAtTop(n, 7);
    assert n / TWO_62 == b / 64;
    ByteAtLow(Marked(n, 8), n, 64 * (3 - b / 64), 7);
  }

  lemma MarkedShort(n: nat, k: nat, b: byte)
    requires k == EncodedLength(n) < 8 && b == ByteAt(n, k - 1)
    ensures forall j :: 0 <= j < k - 1 ==> ByteAt(Marked(n, k), j) == ByteAt(n, j)
    ensures ByteAt(Marked(n, k), k - 1) == MarkOf(k) + b % 64
  {
    hide Pow256, ByteAt;
    Pow256Values();
    var p := Pow256(k - 1);
    assert n < Pow256(k - 1 + 1) && n < 64 * p;
    ByteAtTop(n, k - 1);
    FactorLess(b, 64, p);
    assert Marked(n, k) == n + MarkOf(k) * p;
    ByteAtLow(Marked(n, k), n, MarkOf(k), k - 1);
  }

  // ----- The code

  /** `b` with the bytes from `pos` on overwritten by `x`. */
  function Splice(b: seq<byte>, pos: nat, x: seq<byte>): (r: seq<byte>)
    requires pos + |x| <= |b|
    ensures |r| == |b|
  {
    b[..pos] + x + b[pos + |x|..]
  }

  lemma SpliceTwice(b: seq<byte>, pos: nat, x: seq<byte>, y: seq<byte>)
    requires pos + |x| + |y| <= |b|
    ensures Splice(Splice(b, pos, x), pos + |x|, y) == Splice(b, pos, x + y)
  {
  }

  lemma SpliceHead(b: seq<byte>, pos: nat, x: byte, x': byte, y: seq<byte>)
    requires pos + 1 + |y| <= |b|
    ensures Splice(b, pos, [x] + y)[pos] == x
    ensures Splice(b, pos, [x] + y)[pos := x'] == Splice(b, pos, [x'] + y)
  {
  }

  lemma SpliceOne(b: seq<byte>, pos: nat, x: byte)
    requires pos < |b|
    ensures b[pos := x] == Splice(b, pos, [x])
  {
  }

  lemma SpliceFromSlices(b: seq<byte>, b': seq<byte>, pos: nat, x: seq<byte>)
    requires pos + |x| <= |b| == |b'|
    requires b'[..pos] == b[..pos] && b'[pos + |x|..] == b[pos + |x|..]
    requires forall i :: 0 <= i < |x| ==> b'[pos + i] == x[i]
    ensures b' == Splice(b, pos, x)
  {
  }

  lemma SpliceSlice(b: seq<byte>, pos: nat, x: seq<byte>)
    requires pos + |x| <= |b|
    ensures Splice(b, pos, x)[pos..pos + |x|] == x
    ensures Splice(b, pos, x)[..pos] == b[..pos]
    ensures Splice(b, pos, x)[pos + |x|..] == b[pos + |x|..]
  {
  }

  /** What was spliced after a part of the buffer extends that part. */
  lemma SpliceExtends(b: seq<byte>, lo: nat, pos: nat, x: seq<byte>)
    requires lo <= pos && pos + |x| <= |b|
    ensures Splice(b, pos, x)[lo..pos + |x|] == b[lo..pos] + x
    ensures Splice(b, pos, x)[..pos] == b[..pos]
  {
  }

  /** Only bytes from `pos` up to `max` differ. */
  predicate SameOutside(b: seq<byte>, b': seq<byte>, pos: nat, max: nat) {
    pos <= max <= |b| == |b'| && b'[..pos] == b[..pos] && b'[max..] == b[max..]
  }

  lemma SameOutsideItself(b: seq<byte>, pos: nat, max: nat)
    requires pos <= max <= |b|
    ensures SameOutside(b, b, pos, max)
  {
  }

  lemma SameOutsideJoin(b: seq<byte>, b1: seq<byte>, b2: seq<byte>, pos: nat, max: nat)
    requires SameOutside(b, b1, pos, max) && SameOutside(b1, b2, pos, max)
    ensures SameOutside(b, b2, pos, max)
  {
  }

  lemma SpliceSameOutside(b: seq<byte>, pos: nat, x: seq<byte>, lo: nat, max: nat)
    requires lo <= pos && pos + |x| <= max <= |b|
    ensures SameOutside(b, Splice(b, pos, x), lo, max)
  {
  }

  /** Writes the shortest encoding of `n` at `pos`, or nothing at all when it would pass `max`. */
  method Encode(buf: array<byte>, pos: nat, max: nat, n: u64) returns (next: Option<nat>)
    requires pos <= max <= buf.Length
    modifies buf
    ensures next.Some? <==> pos + EncodedLength(n) <= max
    ensures next.None? ==> buf[..] == old(buf[..])
    ensures next.Some? ==>
      next.value == pos + EncodedLength(n) && buf[..] == Splice(old(buf[..]), pos, Encoding(n))
  {
    hide ByteAt, Encoding, Splice;
    next := None;
    EncodingBytes(n);
    if n < 16384 {
      if n < 64 {
        if pos + 1 <= max {
          buf[pos] := n;
          next := Some(pos + 1);
        }
      } else if pos + 2 <= max {
        // or-ing a byte with a mark sets the two high bits
        buf[pos], buf[pos + 1] := 0x40 + ByteAt(n, 1) % 64, ByteAt(n, 0);
        next := Some(pos + 2);
      }
    } else if n < 1073741824 {
      if pos + 4 <= max {
        buf[pos], buf[pos + 1], buf[pos + 2], buf[pos + 3] :=
          0x80 + ByteAt(n, 3) % 64, ByteAt(n, 2), ByteAt(n, 1), ByteAt(n, 0);
        next := Some(pos + 4);
      }
    } else if pos + 8 <= max {
      buf[pos], buf[pos + 1], buf[pos + 2], buf[pos + 3], buf[pos + 4], buf[pos + 5], buf[pos + 6], buf[pos + 7] :=
        0xC0 + ByteAt(n, 7) % 64, ByteAt(n, 6), ByteAt(n, 5), ByteAt(n, 4),
        ByteAt(n, 3), ByteAt(n, 2), ByteAt(n, 1), ByteAt(n, 0);
      next := Some(pos + 8);
    }
    if next.Some? {
      SpliceFromSlices(old(buf[..]), buf[..], pos, Encoding(n));
    }
  }

  lemma EncodingBytes(n: u64)
    ensures var e := Encoding(n);
            match EncodedLength(n)
            case 1 => e == [n]
            case 2 => e == [0x40 + ByteAt(n, 1) % 64, ByteAt(n, 0)]
            case 4 => e == [0x80 + ByteAt(n, 3) % 64, ByteAt(n, 2), ByteAt(n, 1), ByteAt(n, 0)]
            case _ => e == [0xC0 + ByteAt(n, 7) % 64, ByteAt(n, 6), ByteAt(n, 5), ByteAt(n, 4),
                            ByteAt(n, 3), ByteAt(n, 2), ByteAt(n, 1), ByteAt(n, 0)]
  {
    hide ByteAt, Encoding;
    var e := Encoding(n);
    EncodingByte(n);
    match EncodedLength(n)
    case 1 => LowByte(n);
    case 2 => assert e == [e[0], e[1]];
    case 4 => assert e == [e[0], e[1], e[2], e[3]];
    case _ => assert e == [e[0], e[1], e[2], e[3], e[4], e[5], e[6], e[7]];
  }

  lemma LowByte(n: nat)
    requires n < 256
    ensures ByteAt(n, 0) == n
  {
  }

  lemma EncodingByte(n: u64)
    ensures var k := EncodedLength(n);
            && Encoding(n)[0] == MarkOf(k) + ByteAt(n, k - 1) % 64
            && forall i :: 1 <= i < k ==> Encoding(n)[i] == ByteAt(n, k - 1 - i)
  {
    var k := EncodedLength(n);
    MarkedBytes(n);
    forall i | 0 <= i < k
      ensures Encoding(n)[i] == ByteAt(Marked(n, k), k - 1 - i)
    {
      BigEndianBytes(Marked(n, k), k, k - 1 - i);
    }
  }

  /** Reads an integer at `pos`; the accumulator loop refines the big-endian value. */
  method Decode(buf: array<byte>, pos: nat, max: nat) returns (r: Option<(u64, nat)>)
    requires pos <= max <= buf.Length
    ensures r.Some? <==> Decoding(buf[pos..max]).Some?
    ensures r.Some? ==> (r.value.0, r.value.1 - pos) == Decoding(buf[pos..max]).value
  {
    if pos >= max {
      return None;
    }
    ghost var s := buf[pos..max];
    assert s[0] == buf[pos];
    var length := DecodedLength(buf[pos]);
    if length > max - pos {
      return None;
    }
    ghost var t := [s[0] % 64] + s[1..length];
    assert |t| == length;
    var v: int := buf[pos] % 64;
    assert t[..1] == [v];
    for i := 1 to length
      invariant v == FromBigEndian(t[..i])
    {
      assert t[..i + 1][..i] == t[..i];
      assert t[i] == s[1..length][i - 1] == s[i];
      assert s[i] == buf[pos + i];
      v := v * 256 + buf[pos + i] as int;
    }
    assert t[..length] == t;
    DecodingBound(s);
    return Some((v, pos + length));
  }

  /** Appends an integer to what was written from `lo` on. */
  method Append(buf: array<byte>, lo: nat, pos: nat, max: nat, n: u64, ghost written: seq<byte>) returns (next: Option<nat>)
    requires lo <= pos <= max <= buf.Length && buf[lo..pos] == written
    modifies buf
    ensures next.Some? <==> pos + EncodedLength(n) <= max
    ensures SameOutside(old(buf[..]), buf[..], lo, max)
    ensures buf[lo..pos] == written
    ensures next.Some? ==> next.value == pos + EncodedLength(n) && buf[lo..next.value] == written + Encoding(n)
  {
    hide Encoding, EncodedLength, Splice, SameOutside;
    ghost var b := buf[..];
    SameOutsideItself(b, lo, max);
    next := Encode(buf, pos, max, n);
    if next.Some? {
      SpliceExtends(b, lo, pos, Encoding(n));
      SpliceSameOutside(b, pos, Encoding(n), lo, max);
      assert buf[lo..pos] == buf[..pos][lo..] && b[lo..pos] == b[..pos][lo..];
    }
  }
}
