/** The prefixed integers of QPACK in picohttp/h3zero.c (section 5.1 of RFC 7541). */
module PrefixInt {
  import opened Wrappers
  import opened Varint

  /** The low bits of the first byte that hold the integer. */
  predicate IsMask(mask: nat) {
    mask == 0x07 || mask == 0x0F || mask == 0x3F || mask == 0x7F
  }

  predicate IsPrefix(prefix: byte, mask: nat)
    requires IsMask(mask)
  {
    prefix as int % (mask + 1) == 0
  }

  /** Groups of 7 bits, least significant first; all but the last byte have the high bit set. */
  function TailBytes(v: nat): (s: seq<byte>)
    ensures s != []
  {
    if v < 128 then [v] else [128 + v % 128] + TailBytes(v / 128)
  }

  function IntBytes(prefix: byte, mask: nat, val: nat): (s: seq<byte>)
    requires IsMask(mask) && IsPrefix(prefix, mask)
    ensures s != []
  {
    if val < mask then [prefix as int + val] else [prefix as int + mask] + TailBytes(val - mask)
  }

  function DecodeTail(s: seq<byte>, shift: nat): (r: Option<(nat, nat)>)
    ensures r.Some? ==> r.value.1 <= |s|
  {
    if s == [] || shift >= 62 then None
    else if s[0] as int < 128 then Some((s[0] as int, 1))
    else
      var (v, l) :- DecodeTail(s[1..], shift + 7);
      Some((s[0] as int - 128 + 128 * v, 1 + l))
  }

  /** The integer and the number of bytes it takes. */
  function DecodeInt(s: seq<byte>, mask: nat): (r: Option<(nat, nat)>)
    requires IsMask(mask)
    ensures r.Some? ==> 0 < r.value.1 <= |s|
  {
    if s == [] then None
    else if s[0] as int % (mask + 1) < mask then Some((s[0] as int % (mask + 1), 1))
    else
      var (v, l) :- DecodeTail(s[1..], 0);
      Some((v + mask, 1 + l))
  }

  // ----- Round trip

  function Power128(k: nat): (p: nat)
    ensures p > 0
  {
    if k == 0 then 1 else 128 * Power128(k - 1)
  }

  lemma Power128At9()
    ensures Power128(9) == 2 * TWO_62
  {
  }

  lemma DivBelow(v: nat, p: nat)
    ensures v / 128 < p <==> v < 128 * p
  {
  }

  /** Of nine groups at most, the decoder reads what the encoder wrote; it rejects longer integers. */
  lemma {:induction false} TailRoundTrip(v: nat, k: nat, rest: seq<byte>)
    requires k <= 8
    ensures DecodeTail(TailBytes(v) + rest, 7 * k)
         == if v < Power128(9 - k) then Some((v, |TailBytes(v)|)) else None
    decreases v
  {
    if v >= 128 {
      var s := TailBytes(v) + rest;
      assert s[1..] == TailBytes(v / 128) + rest;
      DivBelow(v, Power128(8 - k));
      if k < 8 {
        TailRoundTrip(v / 128, k + 1, rest);
      }
    } else {
      assert Power128(9 - k) == 128 * Power128(8 - k);
    }
  }

  /** Decoding returns the encoded integer exactly when it exceeds the mask by less than 2^63. */
  lemma IntRoundTripIff(prefix: byte, mask: nat, val: nat, rest: seq<byte>)
    requires IsMask(mask) && IsPrefix(prefix, mask)
    ensures DecodeInt(IntBytes(prefix, mask, val) + rest, mask) == Some((val, |IntBytes(prefix, mask, val)|))
       <==> val < mask + 2 * TWO_62
  {
    hide TailBytes, DecodeTail, Power128;
    var s := IntBytes(prefix, mask, val) + rest;
    if val < mask {
      FirstByte(prefix, mask, val);
    } else {
      FirstByte(prefix, mask, mask);
      assert s[1..] == TailBytes(val - mask) + rest;
      TailRoundTrip(val - mask, 0, rest);
      Power128At9();
    }
  }

  lemma FirstByte(prefix: byte, mask: nat, low: nat)
    requires IsMask(mask) && IsPrefix(prefix, mask) && low <= mask
    ensures prefix as int + low < 256 && (prefix as int + low) % (mask + 1) == low
  {
  }

  lemma IntRoundTrip(prefix: byte, mask: nat, val: nat, rest: seq<byte>)
    requires IsMask(mask) && IsPrefix(prefix, mask) && val < TWO_62
    ensures DecodeInt(IntBytes(prefix, mask, val) + rest, mask) == Some((val, |IntBytes(prefix, mask, val)|))
  {
    hide IntBytes, DecodeInt;
    IntRoundTripIff(prefix, mask, val, rest);
  }

  // ----- The loops

  /** `h3zero_qpack_int_encode`: the prefix is already at `pos`, and the integer is or-ed below it. */
  method IntEncode(buf: array<byte>, pos: nat, max: nat, mask: nat, val: nat) returns (next: Option<nat>)
    requires pos <= max <= buf.Length && IsMask(mask) && (pos < max ==> IsPrefix(buf[pos], mask))
    modifies buf
    ensures SameOutside(old(buf[..]), buf[..], pos, max)
    ensures pos == max ==> next.None?
    ensures pos < max ==>
      var bytes := IntBytes(old(buf[pos]), mask, val);
      && (next.Some? <==> pos + |bytes| <= max)
      && (next.Some? ==> next.value == pos + |bytes| && buf[..] == Splice(old(buf[..]), pos, bytes))
  {
    hide IntBytes, TailBytes, Splice, SameOutside;
    ghost var b := buf[..];
    SameOutsideItself(b, pos, max);
    if pos >= max {
      return None;
    }
    var prefix := buf[pos];
    IntBytesParts(prefix, mask, val);
    if val < mask {
      FirstByte(prefix, mask, val);
      SpliceOne(b, pos, prefix as int + val);
      SpliceSameOutside(b, pos, [prefix as int + val], pos, max);
      buf[pos] := prefix as int + val;
      return Some(pos + 1);
    }
    FirstByte(prefix, mask, mask);
    SpliceOne(b, pos, prefix as int + mask);
    buf[pos] := prefix as int + mask;
    ghost var written: seq<byte> := [prefix as int + mask];
    var v: nat, p := val - mask, pos + 1;
    while v >= 0x80 && p < max
      invariant pos < p == pos + |written| <= max
      invariant buf[..] == Splice(b, pos, written)
      invariant written + TailBytes(v) == IntBytes(prefix, mask, val)
      decreases v
    {
      TailStep(v);
      SpliceOne(buf[..], p, 0x80 + v % 128);
      SpliceTwice(b, pos, written, [0x80 + v % 128]);
      assert written + [0x80 + v % 128] + TailBytes(v / 128) == written + TailBytes(v);
      buf[p] := 0x80 + v % 128;
      written := written + [0x80 + v % 128];
      v, p := v / 128, p + 1;
    }
    TailStep(v);
    if p < max {
      SpliceOne(buf[..], p, v);
      SpliceTwice(b, pos, written, [v]);
      SpliceSameOutside(b, pos, written + [v], pos, max);
      buf[p] := v;
      next := Some(p + 1);
    } else {
      SpliceSameOutside(b, pos, written, pos, max);
      next := None;
    }
  }

  lemma TailStep(v: nat)
    ensures TailBytes(v) == if v < 128 then [v] else [128 + v % 128] + TailBytes(v / 128)
  {
  }

  lemma IntBytesParts(prefix: byte, mask: nat, val: nat)
    requires IsMask(mask) && IsPrefix(prefix, mask)
    ensures prefix as int + mask < 256
    ensures IntBytes(prefix, mask, val)
         == if val < mask then [prefix as int + val] else [prefix as int + mask] + TailBytes(val - mask)
  {
  }

  function Shifted(v: nat, k: nat, tail: Option<(nat, nat)>): Option<(nat, nat)> {
    if tail.None? then None else Some((v + Power128(k) * tail.value.0, k + tail.value.1))
  }

  /** `v | (low << 7 * k)`: the groups below have left these bits clear. */
  function WithGroup(v: nat, k: nat, low: nat): nat {
    v + Power128(k) * low
  }

  lemma TailTurn(s: seq<byte>, v: nat, k: nat)
    requires s != [] && 7 * k < 62 && v < Power128(k)
    ensures s[0] as int >= 128 ==>
      && Shifted(v, k, DecodeTail(s, 7 * k))
      == Shifted(WithGroup(v, k, s[0] as int - 128), k + 1, DecodeTail(s[1..], 7 * k + 7))
      && WithGroup(v, k, s[0] as int - 128) < Power128(k + 1)
    ensures s[0] as int < 128 ==>
      && Shifted(v, k, DecodeTail(s, 7 * k)) == Some((WithGroup(v, k, s[0] as int), k + 1))
      && WithGroup(v, k, s[0] as int) < Power128(k + 1)
  {
    hide Power128;
    NextPower(k);
    if s[0] as int >= 128 {
      var low := s[0] as int - 128;
      Weight(v, Power128(k), low);
      var tail := DecodeTail(s[1..], 7 * k + 7);
      if tail.Some? {
        Regroup(Power128(k), low, tail.value.0);
      }
    } else {
      Weight(v, Power128(k), s[0] as int);
    }
  }

  lemma NextPower(k: nat)
    ensures Power128(k + 1) == 128 * Power128(k)
  {
  }

  lemma Regroup(p: nat, low: nat, t: nat)
    ensures p * (low + 128 * t) == p * low + 128 * p * t
  {
  }

  lemma Weight(v: nat, p: nat, low: nat)
    requires v < p && low < 128
    ensures v + p * low < 128 * p
  {
  }

  /** `h3zero_qpack_int_decode`: each group is or-ed above the ones before it. */
  method IntDecode(buf: array<byte>, pos: nat, max: nat, mask: nat) returns (r: Option<(nat, nat)>)
    requires pos <= max <= buf.Length && IsMask(mask)
    ensures r == match DecodeInt(buf[pos..max], mask)
                 case None => None
                 case Some((val, length)) => Some((val, pos + length))
    ensures r.Some? ==> r.value.0 < 4 * TWO_62
  {
    hide DecodeTail, Power128, Shifted, WithGroup;
    if pos >= max {
      return None;
    }
    var first := buf[pos] as int % (mask + 1);
    if first < mask {
      return Some((first, pos + 1));
    }
    var v: nat, k: nat, p := 0, 0, pos + 1;
    ghost var whole := DecodeTail(buf[p..max], 0);
    assert buf[pos..max][1..] == buf[p..max];
    NothingShifted(whole);
    while p < max && 7 * k < 62
      invariant pos < p <= max && p == pos + 1 + k && k <= 9 && v < Power128(k)
      invariant whole == Shifted(v, k, DecodeTail(buf[p..max], 7 * k))
    {
      ghost var s := buf[p..max];
      assert s == [buf[p]] + buf[p + 1..max];
      TailTurn(s, v, k);
      if buf[p] as int < 0x80 {
        v := WithGroup(v, k, buf[p] as int);
        BelowU64(k + 1);
        assert DecodeInt(buf[pos..max], mask) == Some((v + mask, k + 2));
        return Some((v + mask, p + 1));
      }
      v := WithGroup(v, k, buf[p] as int - 128);
      k, p := k + 1, p + 1;
    }
    NoTail(buf[p..max], v, k);
    return None;
  }

  lemma NothingShifted(r: Option<(nat, nat)>)
    ensures Shifted(0, 0, r) == r && Power128(0) == 1
  {
  }

  lemma NoTail(s: seq<byte>, v: nat, k: nat)
    requires s == [] || 7 * k >= 62
    ensures Shifted(v, k, DecodeTail(s, 7 * k)) == None
  {
  }

  lemma {:induction false} BelowU64(k: nat)
    requires k <= 9
    ensures Power128(k) <= 2 * TWO_62
    decreases 9 - k
  {
    if k == 9 {
      Power128At9();
    } else {
      BelowU64(k + 1);
    }
  }
}
