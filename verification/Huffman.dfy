/** The Huffman decoder of picohttp/h3zero.c: bits are taken from a 64-bit register that is refilled byte by byte
    (section 5.2 of RFC 7541). */
module Huffman {
  import opened Varint
  import opened HuffmanTables
  import opened HuffmanTrie

  // ----- Bits

  /** The last `length` bits of a number, most significant bit first. */
  function BitsOf(n: nat, length: nat): (s: seq<bool>)
    ensures |s| == length
  {
    if length == 0 then [] else BitsOf(n / 2, length - 1) + [n % 2 == 1]
  }

  function ByteBits(s: seq<byte>): (r: seq<bool>)
    ensures |r| == 8 * |s|
  {
    if s == [] then [] else BitsOf(s[0] as int, 8) + ByteBits(s[1..])
  }

  function Ones(n: nat): (s: seq<bool>)
    ensures |s| == n
  {
    if n == 0 then [] else [true] + Ones(n - 1)
  }

  /** The concatenated codes of a string. */
  function Encoded(s: seq<byte>): seq<bool> {
    if s == [] then [] else BitsOf(Code(s[0]), CodeLength(s[0])) + Encoded(s[1..])
  }

  // ----- Reading one bit at a time

  datatype Result = Result(accepted: bool, decoded: seq<byte>)

  lemma RootIsIndex()
    ensures IsIndex(0)
  {
  }

  /** The decoder, one bit at a time, from node `index`. `allOnes` says that all bits since the last octet were 1. */
  function Run(bits: seq<bool>, index: nat, allOnes: bool, decoded: seq<byte>, max: nat): Result
    requires index < 512
    decreases |bits|, if IsIndex(index) then 0 else 1
  {
    if IsIndex(index) then
      if bits == [] then Result(allOnes, decoded)
      else
        var next := Next(index, bits[0]);
        if next >= 512 then Result(allOnes && bits[0], decoded)
        else Run(bits[1..], next, allOnes && bits[0], decoded, max)
    else if |decoded| < max then
      RootIsIndex();
      Run(bits, 0, true, decoded + [Val(index)], max)
    else Result(true, decoded)
  }

  function Decode(s: seq<byte>, max: nat): Result {
    Run(ByteBits(s), 0, true, [], max)
  }

  // ----- Round trip

  function AllOnes(code: nat, length: nat): bool {
    length == 0 || (code % 2 == 1 && AllOnes(code / 2, length - 1))
  }

  /** The bits of a code lead to its node. */
  lemma {:induction false} RunCode(code: nat, length: nat, rest: seq<bool>, decoded: seq<byte>, max: nat)
    requires Node(code, length) < 512
    ensures Run(BitsOf(code, length) + rest, 0, true, decoded, max)
         == Run(rest, Node(code, length), AllOnes(code, length), decoded, max)
    decreases length
  {
    hide IsIndex, Next, Val, Run;
    if length == 0 {
      assert BitsOf(code, 0) + rest == rest;
    } else {
      var bit := code % 2 == 1;
      var front := BitsOf(code / 2, length - 1);
      assert front + [bit] + rest == front + ([bit] + rest);
      RunCode(code / 2, length - 1, [bit] + rest, decoded, max);
      RunStep(bit, rest, Node(code / 2, length - 1), AllOnes(code / 2, length - 1), decoded, max);
    }
  }

  lemma RunStep(bit: bool, rest: seq<bool>, index: nat, allOnes: bool, decoded: seq<byte>, max: nat)
    requires index < 512 && IsIndex(index) && Next(index, bit) < 512
    ensures Run([bit] + rest, index, allOnes, decoded, max) == Run(rest, Next(index, bit), allOnes && bit, decoded, max)
  {
  }

  lemma RunOctet(k: byte, rest: seq<bool>, decoded: seq<byte>, max: nat)
    ensures Run(BitsOf(Code(k), CodeLength(k)) + rest, 0, true, decoded, max)
         == if |decoded| < max then Run(rest, 0, true, decoded + [k], max) else Result(true, decoded)
  {
    hide IsIndex, Next, Val, Code, CodeLength;
    EveryCode(k);
    RunCode(Code(k), CodeLength(k), rest, decoded, max);
  }

  lemma {:induction false} RunString(s: seq<byte>, rest: seq<bool>, decoded: seq<byte>, max: nat)
    requires |decoded| <= max
    ensures Run(Encoded(s) + rest, 0, true, decoded, max)
         == if |decoded| + |s| <= max then Run(rest, 0, true, decoded + s, max)
            else Result(true, decoded + s[..max - |decoded|])
  {
    hide Run, Code, CodeLength;
    if s == [] {
      assert Encoded(s) + rest == rest && decoded + s == decoded;
    } else {
      var code := BitsOf(Code(s[0]), CodeLength(s[0]));
      assert code + Encoded(s[1..]) + rest == code + (Encoded(s[1..]) + rest);
      RunOctet(s[0], Encoded(s[1..]) + rest, decoded, max);
      if |decoded| < max {
        RunString(s[1..], rest, decoded + [s[0]], max);
        assert decoded + [s[0]] + s[1..] == decoded + s;
        if |decoded| + |s| > max {
          assert decoded + [s[0]] + s[1..][..max - |decoded| - 1] == decoded + s[..max - |decoded|];
        }
      } else {
        assert decoded + s[..0] == decoded;
      }
    }
  }

  /** Seven 1 bits do not lead out of the index nodes. */
  function OnesNode(n: nat): (i: nat)
    requires n <= 7
    ensures i < 512
  {
    if n == 0 then 0 else if n == 1 then 44 else if n == 2 then 80 else if n == 3 then 112
    else if n == 4 then 128 else if n == 5 then 136 else if n == 6 then 144 else 148
  }

  lemma OnesNodes(n: nat)
    requires n <= 7
    ensures IsIndex(OnesNode(n)) && (n < 7 ==> Next(OnesNode(n), true) == OnesNode(n + 1))
  {
  }

  lemma {:induction false} RunPadding(n: nat, seen: nat, decoded: seq<byte>, max: nat)
    requires seen + n <= 7
    ensures Run(Ones(n), OnesNode(seen), true, decoded, max) == Result(true, decoded)
    decreases n
  {
    hide IsIndex, Next, Val, OnesNode;
    OnesNodes(seen);
    if n > 0 {
      OnesNodes(seen + 1);
      RunStep(true, Ones(n - 1), OnesNode(seen), true, decoded, max);
      RunPadding(n - 1, seen + 1, decoded, max);
    }
  }

  /** A string encoded by Appendix B of RFC 7541 and padded with up to seven 1 bits is decoded if it fits; the
      decoder also accepts a longer one, and then returns what fits. */
  lemma HuffmanRoundTrip(s: seq<byte>, padding: nat, w: seq<byte>, max: nat)
    requires padding <= 7 && ByteBits(w) == Encoded(s) + Ones(padding)
    ensures Decode(w, max) == Result(true, if |s| <= max then s else s[..max])
  {
    hide Run, Encoded, ByteBits;
    RunString(s, Ones(padding), [], max);
    assert [] + s == s;
    if |s| <= max {
      RunPadding(padding, 0, s, max);
    } else {
      assert [] + s[..max] == s[..max];
    }
  }

  // ----- The register

  function PowerOfTwo(n: nat): (p: nat)
    ensures p > 0
  {
    if n == 0 then 1 else 2 * PowerOfTwo(n - 1)
  }

  /** The number with these bits, most significant bit first. */
  ghost function Number(bits: seq<bool>): nat {
    if bits == [] then 0
    else 2 * Number(bits[..|bits| - 1]) + (if bits[|bits| - 1] then 1 else 0)
  }

  lemma {:induction false} NumberAppend(bits: seq<bool>, n: nat, length: nat)
    requires n < PowerOfTwo(length)
    ensures Number(bits + BitsOf(n, length)) == Number(bits) * PowerOfTwo(length) + n
    decreases length
  {
    if length == 0 {
      assert bits + BitsOf(n, 0) == bits;
    } else {
      NumberAppend(bits, n / 2, length - 1);
      var s, p := bits + BitsOf(n, length), PowerOfTwo(length - 1);
      assert s[..|s| - 1] == bits + BitsOf(n / 2, length - 1);
      Doubled(Number(bits), p, n);
    }
  }

  lemma Doubled(a: nat, p: nat, n: nat)
    ensures 2 * (a * p + n / 2) + n % 2 == a * (2 * p) + n
  {
  }

  lemma {:induction false} NumberHead(bits: seq<bool>)
    requires bits != []
    ensures Number(bits) == (if bits[0] then PowerOfTwo(|bits| - 1) else 0) + Number(bits[1..])
    ensures Number(bits[1..]) < PowerOfTwo(|bits| - 1)
    decreases |bits|
  {
    if |bits| > 1 {
      var front := bits[..|bits| - 1];
      NumberHead(front);
      assert bits[1..][..|bits| - 2] == front[1..];
    }
  }

  lemma {:induction false} PowerSum(a: nat, b: nat)
    ensures PowerOfTwo(a) * PowerOfTwo(b) == PowerOfTwo(a + b)
    decreases a
  {
    if a > 0 {
      PowerSum(a - 1, b);
    }
  }

  lemma Square(a: nat, p: nat)
    requires PowerOfTwo(a) == p
    ensures PowerOfTwo(2 * a) == p * p
  {
    PowerSum(a, a);
  }

  lemma Powers()
    ensures PowerOfTwo(1) == 2 && PowerOfTwo(8) == 256
    ensures PowerOfTwo(63) == TWO_62 * 2 && PowerOfTwo(64) == TWO_62 * 4
  {
    assert PowerOfTwo(1) == 2 && PowerOfTwo(8) == 256;
    Square(8, 0x100);
    Square(16, 0x1_0000);
    Square(32, 0x1_0000_0000);
    assert PowerOfTwo(64) == 2 * PowerOfTwo(63);
  }

  /** The register holds the unread bits `window` at its top, and zeros below. */
  ghost predicate Loaded(register: u64, window: seq<bool>) {
    |window| <= 64 && register as int == Number(window) * PowerOfTwo(64 - |window|)
  }

  lemma Empty()
    ensures Loaded(0, [])
  {
  }

  /** A byte added below the unread bits. It shares no bit with them, so that `|` is an addition. */
  lemma AddByte(register: u64, window: seq<bool>, b: byte)
    requires Loaded(register, window) && |window| < 57
    ensures var added := b as int * PowerOfTwo(56 - |window|);
            && register as int % PowerOfTwo(64 - |window|) == 0 && added < PowerOfTwo(64 - |window|)
            && register as int + added == Number(window + BitsOf(b as int, 8)) * PowerOfTwo(56 - |window|)
            && register as int + added < TWO_62 * 4
  {
    hide Number, BitsOf, PowerOfTwo;
    var p, q := PowerOfTwo(56 - |window|), PowerOfTwo(64 - |window|);
    Powers();
    PowerSum(8, 56 - |window|);
    assert q == 256 * p;
    NumberAppend(window, b as int, 8);
    var n := Number(window);
    Distribute(n, 256, b as int, p);
    assert register as int == n * q;
    MultipleMod(n, q);
    assert b as int * p < 256 * p;
    NumberBound(window);
    PowerSum(|window|, 64 - |window|);
    SumBelow(n, PowerOfTwo(|window|), q, b as int * p);
  }

  lemma Distribute(n: nat, a: nat, b: nat, p: nat)
    ensures (n * a + b) * p == n * (a * p) + b * p
  {
  }

  lemma MultipleMod(n: nat, q: nat)
    requires q > 0
    ensures n * q % q == 0
    ensures n * q / q == n
  {
    ModUnique(n * q, q, n, 0);
  }

  lemma ModUnique(x: int, q: int, k: int, r: int)
    requires q > 0 && x == k * q + r && 0 <= r < q
    ensures x / q == k && x % q == r
  {
    var k', r' := x / q, x % q;
    assert x == k' * q + r';
    if k > k' {
      AtLeast(k - k', q);
    } else if k < k' {
      AtLeast(k' - k, q);
    }
  }

  lemma AtLeast(a: int, q: nat)
    requires a >= 1
    ensures a * q >= q
  {
  }

  lemma SumBelow(n: nat, m: nat, q: nat, x: nat)
    requires n < m && x < q
    ensures n * q + x < m * q
  {
    AtLeast(m - n, q);
    assert m * q == n * q + (m - n) * q;
  }

  lemma {:induction false} NumberBound(bits: seq<bool>)
    ensures Number(bits) < PowerOfTwo(|bits|)
  {
    if bits != [] {
      NumberHead(bits);
    }
  }

  predicate TopBit(register: u64) {
    register as int / (TWO_62 * 2) == 1
  }

  function ShiftLeft(register: u64): u64 {
    (register as int * 2) % (TWO_62 * 4)
  }

  /** The top bit of the register is the next bit, and shifting the register left drops it. */
  lemma TakeBit(register: u64, window: seq<bool>)
    requires Loaded(register, window) && window != []
    ensures TopBit(register) == window[0] && Loaded(ShiftLeft(register), window[1..])
  {
    hide Number, PowerOfTwo, TopBit, ShiftLeft;
    var p, rest := PowerOfTwo(64 - |window|), Number(window[1..]);
    var q := PowerOfTwo(|window| - 1);
    var top := if window[0] then 1 else 0;
    NumberHead(window);
    Powers();
    PowerSum(|window| - 1, 64 - |window|);
    PowerSum(1, 64 - |window|);
    Distribute(top, q, rest, p);
    SumBelow(rest, q, p, 0);
    Shifted(register, top, rest * p);
    Doubling(rest, p);
  }

  lemma Doubling(a: nat, p: nat)
    ensures a * (2 * p) == 2 * (a * p)
  {
  }

  lemma Shifted(register: u64, top: nat, low: nat)
    requires top <= 1 && low < TWO_62 * 2 && register as int == top * (TWO_62 * 2) + low
    ensures TopBit(register) == (top == 1) && ShiftLeft(register) as int == 2 * low
  {
  }

  method Refill(buf: array<byte>, pos: nat, end: nat, register: u64, bitsIn: nat, ghost window: seq<bool>)
    returns (p: nat, r: u64, n: nat, ghost w: seq<bool>)
    requires pos <= end <= buf.Length && Loaded(register, window) && bitsIn == |window|
    ensures pos <= p <= end && Loaded(r, w) && n == |w|
    ensures w + ByteBits(buf[p..end]) == window + ByteBits(buf[pos..end])
    ensures n == 0 ==> p == end
  {
    hide Loaded, ByteBits, PowerOfTwo, BitsOf;
    p, r, n, w := pos, register, bitsIn, window;
    while n < 57 && p < end
      invariant pos <= p <= end && Loaded(r, w) && n == |w|
      invariant w + ByteBits(buf[p..end]) == window + ByteBits(buf[pos..end])
    {
      var added := buf[p] as int * PowerOfTwo(64 - n - 8);
      AddByte(r, w, buf[p]);
      FirstByte(buf[p..end]);
      assert buf[p..end][1..] == buf[p + 1..end];
      ghost var first, rest := BitsOf(buf[p] as int, 8), ByteBits(buf[p + 1..end]);
      assert w + first + rest == w + (first + rest);
      r := r as int + added;
      w := w + BitsOf(buf[p] as int, 8);
      StillLoaded(r, w);
      n := n + 8;
      p := p + 1;
    }
  }

  lemma FirstByte(s: seq<byte>)
    requires s != []
    ensures ByteBits(s) == BitsOf(s[0] as int, 8) + ByteBits(s[1..])
  {
  }

  lemma StillLoaded(r: u64, w: seq<bool>)
    requires |w| <= 64 && r as int == Number(w) * PowerOfTwo(64 - |w|)
    ensures Loaded(r, w)
  {
  }

  /** `hzero_qpack_huffman_decode`: the register, refilled before each step, gives the bits one at a time. */
  method HuffmanDecode(buf: array<byte>, pos: nat, end: nat, decoded: array<byte>, max: nat)
    returns (accepted: bool, n: nat)
    requires pos <= end <= buf.Length && max <= decoded.Length && buf != decoded
    modifies decoded
    ensures n <= max && Result(accepted, decoded[..n]) == Decode(buf[pos..end], max)
    ensures decoded[n..] == old(decoded[n..])
  {
    hide IsIndex, Next, Val, Run, Loaded, ByteBits, TopBit, ShiftLeft, Decode, BitsOf, Number, PowerOfTwo;
    var p, bitsIn, index, allOnes := pos, 0, 0, true;
    var register: u64 := 0;
    ghost var window: seq<bool> := [];
    n := 0;
    Empty();
    Begin(buf[pos..end], max);
    assert decoded[..0] == [];
    while true
      invariant pos <= p <= end && Loaded(register, window) && bitsIn == |window| && index < 512 && n <= max
      invariant Run(window + ByteBits(buf[p..end]), index, allOnes, decoded[..n], max) == Decode(buf[pos..end], max)
      invariant decoded[n..] == old(decoded[n..])
      decreases |window + ByteBits(buf[p..end])|, if IsIndex(index) then 0 else 1
    {
      p, register, bitsIn, window := Refill(buf, p, end, register, bitsIn, window);
      ghost var bits := window + ByteBits(buf[p..end]);
      RunUnfold(bits, index, allOnes, decoded[..n], max);
      if IsIndex(index) {
        if bitsIn <= 0 {
          NoBytes(buf[p..end]);
          return allOnes, n;
        }
        TakeBit(register, window);
        var bit := TopBit(register);
        register := ShiftLeft(register);
        assert bits[1..] == window[1..] + ByteBits(buf[p..end]);
        window := window[1..];
        bitsIn := bitsIn - 1;
        index := Next(index, bit);
        allOnes := allOnes && bit;
        if index >= 512 {
          return allOnes, n;
        }
      } else if n < max {
        ghost var before := decoded[..n];
        decoded[n] := Val(index);
        assert decoded[..n + 1] == before + [Val(index)];
        n, index, allOnes := n + 1, 0, true;
        RootIsIndex();
      } else {
        return true, n;
      }
    }
  }

  lemma Begin(s: seq<byte>, max: nat)
    ensures Run([] + ByteBits(s), 0, true, [], max) == Decode(s, max)
  {
    assert [] + ByteBits(s) == ByteBits(s);
  }

  lemma NoBytes(s: seq<byte>)
    requires s == []
    ensures ByteBits(s) == []
  {
  }

  lemma RunUnfold(bits: seq<bool>, index: nat, allOnes: bool, decoded: seq<byte>, max: nat)
    requires index < 512
    ensures Run(bits, index, allOnes, decoded, max)
         == if IsIndex(index) then
              if bits == [] then Result(allOnes, decoded)
              else if Next(index, bits[0]) >= 512 then Result(allOnes && bits[0], decoded)
              else Run(bits[1..], Next(index, bits[0]), allOnes && bits[0], decoded, max)
            else if |decoded| < max then Run(bits, 0, true, decoded + [Val(index)], max)
            else Result(true, decoded)
  {
  }

  // ----- Encoded strings exist

  lemma {:induction false} BitsOfNumber(bits: seq<bool>)
    ensures BitsOf(Number(bits), |bits|) == bits
  {
    if bits != [] {
      BitsOfNumber(bits[..|bits| - 1]);
    }
  }

  lemma {:induction false} Packed(bits: seq<bool>)
    requires |bits| % 8 == 0
    ensures exists w :: ByteBits(w) == bits
    decreases |bits|
  {
    if bits == [] {
      assert ByteBits([]) == [];
    } else {
      Packed(bits[8..]);
      var w :| ByteBits(w) == bits[8..];
      BitsOfNumber(bits[..8]);
      NumberBound(bits[..8]);
      Powers();
      var b: byte := Number(bits[..8]);
      FirstByte([b] + w);
      assert ([b] + w)[1..] == w && bits == bits[..8] + bits[8..];
      assert ByteBits([b] + w) == bits;
    }
  }

  /** Every string has an encoding that the decoder maps back to it. */
  lemma EncodingExists(s: seq<byte>)
    ensures exists w, padding: nat :: padding <= 7 && ByteBits(w) == Encoded(s) + Ones(padding)
    ensures exists w :: Decode(w, |s|) == Result(true, s)
  {
    hide Encoded, ByteBits, Decode;
    var padding: nat := 7 - (|Encoded(s)| + 7) % 8;
    Packed(Encoded(s) + Ones(padding));
    var w :| ByteBits(w) == Encoded(s) + Ones(padding);
    HuffmanRoundTrip(s, padding, w, |s|);
  }
}
