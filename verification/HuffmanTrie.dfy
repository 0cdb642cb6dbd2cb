/** The flat tables of picohttp/h3zero.c form a prefix trie for the code of Appendix B of RFC 7541. */
module HuffmanTrie {
  import opened Varint
  import opened HuffmanTables

  /** The bit of node `i` in the bit table: set if the node is an index, clear if it is a terminal. */
  predicate IsIndex(i: nat)
    requires i < 512
  {
    BitSet(BitByte(i / 8), 7 - i % 8)
  }

  /** `(b >> n) & 1` */
  predicate BitSet(b: byte, n: int) {
    if n >= 4 then (
      if n >= 6 then (if n >= 7 then b / 128 % 2 == 1 else b / 64 % 2 == 1)
      else if n >= 5 then b / 32 % 2 == 1 else b / 16 % 2 == 1
    ) else
    if n >= 2 then (if n >= 3 then b / 8 % 2 == 1 else b / 4 % 2 == 1)
    else if n >= 1 then b / 2 % 2 == 1 else b % 2 == 1
  }

  function Next(i: nat, bit: bool): nat
    requires i < 512
  {
    if bit then i + Val(i) as int else i + 1
  }

  /** The node reached from the root along the bits of a code; 512 or more outside of the table. */
  function Node(code: nat, length: nat): nat {
    if length == 0 then 0
    else
      var i := Node(code / 2, length - 1);
      if i < 512 && IsIndex(i) then Next(i, code % 2 == 1) else 512
  }

  /** Nodes `i` to `end - 1` are one subtrie in pre-order: an index node, then the subtrie for bit 0, then the subtrie
      for bit 1; the terminal below the path `code` holds the octet with that code. Node 512, beyond the tables, is
      the end-of-string symbol. */
  predicate Trie(i: nat, end: nat, code: nat, length: nat)
    decreases end - i
  {
    if i >= 512 then i == 512 && end == 513
    else if IsIndex(i) then
      var m := i + Val(i) as int;
      i + 1 < m < end && Trie(i + 1, m, 2 * code, length + 1) && Trie(m, end, 2 * code + 1, length + 1)
    else end == i + 1 && Code(Val(i)) == code && CodeLength(Val(i)) == length
  }

  predicate Terminal(i: nat, k: byte) {
    i < 512 && !IsIndex(i) && Val(i) == k
  }

  ghost predicate Present(k: byte) {
    exists i: nat :: Terminal(i, k)
  }

  lemma Index(i: nat, m: nat, end: nat, code: nat, length: nat)
    requires i < 512 && IsIndex(i) && m == i + Val(i) as int && i + 1 < m < end
    requires Trie(i + 1, m, 2 * code, length + 1) && Trie(m, end, 2 * code + 1, length + 1)
    ensures Trie(i, end, code, length)
  {
    hide IsIndex, Val, Code, CodeLength;
  }

  lemma Leaf(i: nat, k: byte, code: nat, length: nat)
    requires i < 512 && !IsIndex(i) && Val(i) == k && Code(k) == code && CodeLength(k) == length
    ensures Trie(i, i + 1, code, length) && Present(k)
  {
    hide IsIndex, Val, Code, CodeLength;
    assert Terminal(i, k);
  }

  lemma EndOfString(code: nat, length: nat)
    ensures Trie(512, 513, code, length)
  {
  }

  lemma Subtrie10(c: nat, k: byte)
    requires c == 0x1
    ensures Trie(10, 17, c, 3)
    ensures (k == 99 || k == 101 || k == 105 || k == 111) ==> Present(k)
  {
    hide Trie, Present;
    Leaf(12, 99, 0x4, 5); Leaf(13, 101, 0x5, 5); Index(11, 13, 14, 0x2, 4); Leaf(15, 105, 0x6, 5);
    Leaf(16, 111, 0x7, 5); Index(14, 16, 17, 0x3, 4); Index(10, 14, 17, c, 3);
  }

  lemma Subtrie2(c: nat, k: byte)
    requires c == 0x0
    ensures Trie(2, 17, c, 2)
    ensures (48 <= k <= 50 || k == 97 || k == 99 || k == 101 || k == 105 || k == 111) ==> Present(k)
  {
    hide Trie, Present;
    Leaf(5, 48, 0x0, 5); Leaf(6, 49, 0x1, 5); Index(4, 6, 7, 0x0, 4); Leaf(8, 50, 0x2, 5); Leaf(9, 97, 0x3, 5);
    Index(7, 9, 10, 0x1, 4); Index(3, 7, 10, 0x0, 3); Subtrie10(0x1, k); Index(2, 10, 17, c, 2);
  }

  lemma Subtrie18(c: nat, k: byte)
    requires c == 0x2
    ensures Trie(18, 29, c, 3)
    ensures (k == 32 || k == 37 || 45 <= k <= 46 || 115 <= k <= 116) ==> Present(k)
  {
    hide Trie, Present;
    Leaf(20, 115, 0x8, 5); Leaf(21, 116, 0x9, 5); Index(19, 21, 22, 0x4, 4); Leaf(24, 32, 0x14, 6);
    Leaf(25, 37, 0x15, 6); Index(23, 25, 26, 0xa, 5); Leaf(27, 45, 0x16, 6); Leaf(28, 46, 0x17, 6);
    Index(26, 28, 29, 0xb, 5); Index(22, 26, 29, 0x5, 4); Index(18, 22, 29, c, 3);
  }

  lemma Subtrie37(c: nat, k: byte)
    requires c == 0x7
    ensures Trie(37, 44, c, 4)
    ensures 54 <= k <= 57 ==> Present(k)
  {
    hide Trie, Present;
    Leaf(39, 54, 0x1c, 6); Leaf(40, 55, 0x1d, 6); Index(38, 40, 41, 0xe, 5); Leaf(42, 56, 0x1e, 6);
    Leaf(43, 57, 0x1f, 6); Index(41, 43, 44, 0xf, 5); Index(37, 41, 44, c, 4);
  }

  lemma Subtrie29(c: nat, k: byte)
    requires c == 0x3
    ensures Trie(29, 44, c, 3)
    ensures (k == 47 || 51 <= k <= 57) ==> Present(k)
  {
    hide Trie, Present;
    Leaf(32, 47, 0x18, 6); Leaf(33, 51, 0x19, 6); Index(31, 33, 34, 0xc, 5); Leaf(35, 52, 0x1a, 6);
    Leaf(36, 53, 0x1b, 6); Index(34, 36, 37, 0xd, 5); Index(30, 34, 37, 0x6, 4); Subtrie37(0x7, k);
    Index(29, 37, 44, c, 3);
  }

  lemma Subtrie17(c: nat, k: byte)
    requires c == 0x1
    ensures Trie(17, 44, c, 2)
    ensures (k == 32 || k == 37 || 45 <= k <= 47 || 51 <= k <= 57 || 115 <= k <= 116) ==> Present(k)
  {
    hide Trie, Present;
    Subtrie18(0x2, k); Subtrie29(0x3, k); Index(17, 29, 44, c, 2);
  }

  lemma Subtrie1(c: nat, k: byte)
    requires c == 0x0
    ensures Trie(1, 44, c, 1)
    ensures (k == 32 || k == 37 || 45 <= k <= 57 || k == 97 || k == 99 || k == 101 || k == 105 || k == 111 ||
             115 <= k <= 116) ==> Present(k)
  {
    hide Trie, Present;
    Subtrie2(0x0, k); Subtrie17(0x1, k); Index(1, 17, 44, c, 1);
  }

  lemma Subtrie54(c: nat, k: byte)
    requires c == 0x9
    ensures Trie(54, 61, c, 4)
    ensures (k == 100 || 102 <= k <= 104) ==> Present(k)
  {
    hide Trie, Present;
    Leaf(56, 100, 0x24, 6); Leaf(57, 102, 0x25, 6); Index(55, 57, 58, 0x12, 5); Leaf(59, 103, 0x26, 6);
    Leaf(60, 104, 0x27, 6); Index(58, 60, 61, 0x13, 5); Index(54, 58, 61, c, 4);
  }

  lemma Subtrie46(c: nat, k: byte)
    requires c == 0x4
    ensures Trie(46, 61, c, 3)
    ensures (k == 61 || k == 65 || k == 95 || k == 98 || k == 100 || 102 <= k <= 104) ==> Present(k)
  {
    hide Trie, Present;
    Leaf(49, 61, 0x20, 6); Leaf(50, 65, 0x21, 6); Index(48, 50, 51, 0x10, 5); Leaf(52, 95, 0x22, 6);
    Leaf(53, 98, 0x23, 6); Index(51, 53, 54, 0x11, 5); Index(47, 51, 54, 0x8, 4); Subtrie54(0x9, k);
    Index(46, 54, 61, c, 3);
  }

  lemma Subtrie69(c: nat, k: byte)
    requires c == 0xb
    ensures Trie(69, 80, c, 4)
    ensures (k == 58 || 66 <= k <= 68 || k == 114 || k == 117) ==> Present(k)
  {
    hide Trie, Present;
    Leaf(71, 114, 0x2c, 6); Leaf(72, 117, 0x2d, 6); Index(70, 72, 73, 0x16, 5); Leaf(75, 58, 0x5c, 7);
    Leaf(76, 66, 0x5d, 7); Index(74, 76, 77, 0x2e, 6); Leaf(78, 67, 0x5e, 7); Leaf(79, 68, 0x5f, 7);
    Index(77, 79, 80, 0x2f, 6); Index(73, 77, 80, 0x17, 5); Index(69, 73, 80, c, 4);
  }

  lemma Subtrie61(c: nat, k: byte)
    requires c == 0x5
    ensures Trie(61, 80, c, 3)
    ensures (k == 58 || 66 <= k <= 68 || 108 <= k <= 110 || k == 112 || k == 114 || k == 117) ==> Present(k)
  {
    hide Trie, Present;
    Leaf(64, 108, 0x28, 6); Leaf(65, 109, 0x29, 6); Index(63, 65, 66, 0x14, 5); Leaf(67, 110, 0x2a, 6);
    Leaf(68, 112, 0x2b, 6); Index(66, 68, 69, 0x15, 5); Index(62, 66, 69, 0xa, 4); Subtrie69(0xb, k);
    Index(61, 69, 80, c, 3);
  }

  lemma Subtrie45(c: nat, k: byte)
    requires c == 0x2
    ensures Trie(45, 80, c, 2)
    ensures (k == 58 || k == 61 || 65 <= k <= 68 || k == 95 || k == 98 || k == 100 || 102 <= k <= 104 ||
             108 <= k <= 110 || k == 112 || k == 114 || k == 117) ==> Present(k)
  {
    hide Trie, Present;
    Subtrie46(0x4, k); Subtrie61(0x5, k); Index(45, 61, 80, c, 2);
  }

  lemma Subtrie90(c: nat, k: byte)
    requires c == 0x19
    ensures Trie(90, 97, c, 5)
    ensures 73 <= k <= 76 ==> Present(k)
  {
    hide Trie, Present;
    Leaf(92, 73, 0x64, 7); Leaf(93, 74, 0x65, 7); Index(91, 93, 94, 0x32, 6); Leaf(95, 75, 0x66, 7);
    Leaf(96, 76, 0x67, 7); Index(94, 96, 97, 0x33, 6); Index(90, 94, 97, c, 5);
  }

  lemma Subtrie82(c: nat, k: byte)
    requires c == 0xc
    ensures Trie(82, 97, c, 4)
    ensures 69 <= k <= 76 ==> Present(k)
  {
    hide Trie, Present;
    Leaf(85, 69, 0x60, 7); Leaf(86, 70, 0x61, 7); Index(84, 86, 87, 0x30, 6); Leaf(88, 71, 0x62, 7);
    Leaf(89, 72, 0x63, 7); Index(87, 89, 90, 0x31, 6); Index(83, 87, 90, 0x18, 5); Subtrie90(0x19, k);
    Index(82, 90, 97, c, 4);
  }

  lemma Subtrie105(c: nat, k: byte)
    requires c == 0x1b
    ensures Trie(105, 112, c, 5)
    ensures 81 <= k <= 84 ==> Present(k)
  {
    hide Trie, Present;
    Leaf(107, 81, 0x6c, 7); Leaf(108, 82, 0x6d, 7); Index(106, 108, 109, 0x36, 6); Leaf(110, 83, 0x6e, 7);
    Leaf(111, 84, 0x6f, 7); Index(109, 111, 112, 0x37, 6); Index(105, 109, 112, c, 5);
  }

  lemma Subtrie97(c: nat, k: byte)
    requires c == 0xd
    ensures Trie(97, 112, c, 4)
    ensures 77 <= k <= 84 ==> Present(k)
  {
    hide Trie, Present;
    Leaf(100, 77, 0x68, 7); Leaf(101, 78, 0x69, 7); Index(99, 101, 102, 0x34, 6); Leaf(103, 79, 0x6a, 7);
    Leaf(104, 80, 0x6b, 7); Index(102, 104, 105, 0x35, 6); Index(98, 102, 105, 0x1a, 5); Subtrie105(0x1b, k);
    Index(97, 105, 112, c, 4);
  }

  lemma Subtrie81(c: nat, k: byte)
    requires c == 0x6
    ensures Trie(81, 112, c, 3)
    ensures 69 <= k <= 84 ==> Present(k)
  {
    hide Trie, Present;
    Subtrie82(0xc, k); Subtrie97(0xd, k); Index(81, 97, 112, c, 3);
  }

  lemma Subtrie121(c: nat, k: byte)
    requires c == 0x1d
    ensures Trie(121, 128, c, 5)
    ensures (106 <= k <= 107 || k == 113 || k == 118) ==> Present(k)
  {
    hide Trie, Present;
    Leaf(123, 106, 0x74, 7); Leaf(124, 107, 0x75, 7); Index(122, 124, 125, 0x3a, 6); Leaf(126, 113, 0x76, 7);
    Leaf(127, 118, 0x77, 7); Index(125, 127, 128, 0x3b, 6); Index(121, 125, 128, c, 5);
  }

  lemma Subtrie113(c: nat, k: byte)
    requires c == 0xe
    ensures Trie(113, 128, c, 4)
    ensures (85 <= k <= 87 || k == 89 || 106 <= k <= 107 || k == 113 || k == 118) ==> Present(k)
  {
    hide Trie, Present;
    Leaf(116, 85, 0x70, 7); Leaf(117, 86, 0x71, 7); Index(115, 117, 118, 0x38, 6); Leaf(119, 87, 0x72, 7);
    Leaf(120, 89, 0x73, 7); Index(118, 120, 121, 0x39, 6); Index(114, 118, 121, 0x1c, 5); Subtrie121(0x1d, k);
    Index(113, 121, 128, c, 4);
  }

  lemma Subtrie192(c: nat, k: byte)
    requires c == 0x1fffc
    ensures Trie(192, 201, c, 17)
    ensures (k == 92 || k == 128 || k == 130 || k == 195 || k == 208) ==> Present(k)
  {
    hide Trie, Present;
    Leaf(194, 92, 0x7fff0, 19); Leaf(195, 195, 0x7fff1, 19); Index(193, 195, 196, 0x3fff8, 18);
    Leaf(197, 208, 0x7fff2, 19); Leaf(199, 128, 0xfffe6, 20); Leaf(200, 130, 0xfffe7, 20);
    Index(198, 200, 201, 0x7fff3, 19); Index(196, 198, 201, 0x3fff9, 18); Index(192, 196, 201, c, 17);
  }

  lemma Subtrie209(c: nat, k: byte)
    requires c == 0x3fffb
    ensures Trie(209, 220, c, 18)
    ensures (k == 153 || k == 161 || k == 167 || k == 172 || k == 224 || k == 226) ==> Present(k)
  {
    hide Trie, Present;
    Leaf(211, 224, 0xfffec, 20); Leaf(212, 226, 0xfffed, 20); Index(210, 212, 213, 0x7fff6, 19);
    Leaf(215, 153, 0x1fffdc, 21); Leaf(216, 161, 0x1fffdd, 21); Index(214, 216, 217, 0xfffee, 20);
    Leaf(218, 167, 0x1fffde, 21); Leaf(219, 172, 0x1fffdf, 21); Index(217, 219, 220, 0xfffef, 20);
    Index(213, 217, 220, 0x7fff7, 19); Index(209, 213, 220, c, 18);
  }

  lemma Subtrie201(c: nat, k: byte)
    requires c == 0x1fffd
    ensures Trie(201, 220, c, 17)
    ensures (k == 131 || k == 153 || 161 <= k <= 162 || k == 167 || k == 172 || k == 184 || k == 194 || k == 224 ||
             k == 226) ==> Present(k)
  {
    hide Trie, Present;
    Leaf(204, 131, 0xfffe8, 20); Leaf(205, 162, 0xfffe9, 20); Index(203, 205, 206, 0x7fff4, 19);
    Leaf(207, 184, 0xfffea, 20); Leaf(208, 194, 0xfffeb, 20); Index(206, 208, 209, 0x7fff5, 19);
    Index(202, 206, 209, 0x3fffa, 18); Subtrie209(0x3fffb, k); Index(201, 209, 220, c, 17);
  }

  lemma Subtrie191(c: nat, k: byte)
    requires c == 0xfffe
    ensures Trie(191, 220, c, 16)
    ensures (k == 92 || k == 128 || 130 <= k <= 131 || k == 153 || 161 <= k <= 162 || k == 167 || k == 172 ||
             k == 184 || 194 <= k <= 195 || k == 208 || k == 224 || k == 226) ==> Present(k)
  {
    hide Trie, Present;
    Subtrie192(0x1fffc, k); Subtrie201(0x1fffd, k); Index(191, 201, 220, c, 16);
  }

  lemma Subtrie230(c: nat, k: byte)
    requires c == 0x7fff9
    ensures Trie(230, 237, c, 19)
    ensures (216 <= k <= 217 || k == 227 || k == 229) ==> Present(k)
  {
    hide Trie, Present;
    Leaf(232, 216, 0x1fffe4, 21); Leaf(233, 217, 0x1fffe5, 21); Index(231, 233, 234, 0xffff2, 20);
    Leaf(235, 227, 0x1fffe6, 21); Leaf(236, 229, 0x1fffe7, 21); Index(234, 236, 237, 0xffff3, 20);
    Index(230, 234, 237, c, 19);
  }

  lemma Subtrie222(c: nat, k: byte)
    requires c == 0x3fffc
    ensures Trie(222, 237, c, 18)
    ensures (176 <= k <= 177 || k == 179 || k == 209 || 216 <= k <= 217 || k == 227 || k == 229) ==> Present(k)
  {
    hide Trie, Present;
    Leaf(225, 176, 0x1fffe0, 21); Leaf(226, 177, 0x1fffe1, 21); Index(224, 226, 227, 0xffff0, 20);
    Leaf(228, 179, 0x1fffe2, 21); Leaf(229, 209, 0x1fffe3, 21); Index(227, 229, 230, 0xffff1, 20);
    Index(223, 227, 230, 0x7fff8, 19); Subtrie230(0x7fff9, k); Index(222, 230, 237, c, 18);
  }

  lemma Subtrie238(c: nat, k: byte)
    requires c == 0x7fffa
    ensures Trie(238, 251, c, 19)
    ensures (k == 129 || 132 <= k <= 134 || k == 136 || k == 146 || k == 230) ==> Present(k)
  {
    hide Trie, Present;
    Leaf(240, 230, 0x1fffe8, 21); Leaf(242, 129, 0x3fffd2, 22); Leaf(243, 132, 0x3fffd3, 22);
    Index(241, 243, 244, 0x1fffe9, 21); Index(239, 241, 244, 0xffff4, 20); Leaf(246, 133, 0x3fffd4, 22);
    Leaf(247, 134, 0x3fffd5, 22); Index(245, 247, 248, 0x1fffea, 21); Leaf(249, 136, 0x3fffd6, 22);
    Leaf(250, 146, 0x3fffd7, 22); Index(248, 250, 251, 0x1fffeb, 21); Index(244, 248, 251, 0xffff5, 20);
    Index(238, 244, 251, c, 19);
  }

  lemma Subtrie259(c: nat, k: byte)
    requires c == 0xffff7
    ensures Trie(259, 266, c, 20)
    ensures (k == 164 || 169 <= k <= 170 || k == 173) ==> Present(k)
  {
    hide Trie, Present;
    Leaf(261, 164, 0x3fffdc, 22); Leaf(262, 169, 0x3fffdd, 22); Index(260, 262, 263, 0x1fffee, 21);
    Leaf(264, 170, 0x3fffde, 22); Leaf(265, 173, 0x3fffdf, 22); Index(263, 265, 266, 0x1fffef, 21);
    Index(259, 263, 266, c, 20);
  }

  lemma Subtrie251(c: nat, k: byte)
    requires c == 0x7fffb
    ensures Trie(251, 266, c, 19)
    ensures (k == 154 || k == 156 || k == 160 || 163 <= k <= 164 || 169 <= k <= 170 || k == 173) ==> Present(k)
  {
    hide Trie, Present;
    Leaf(254, 154, 0x3fffd8, 22); Leaf(255, 156, 0x3fffd9, 22); Index(253, 255, 256, 0x1fffec, 21);
    Leaf(257, 160, 0x3fffda, 22); Leaf(258, 163, 0x3fffdb, 22); Index(256, 258, 259, 0x1fffed, 21);
    Index(252, 256, 259, 0xffff6, 20); Subtrie259(0xffff7, k); Index(251, 259, 266, c, 19);
  }

  lemma Subtrie237(c: nat, k: byte)
    requires c == 0x3fffd
    ensures Trie(237, 266, c, 18)
    ensures (k == 129 || 132 <= k <= 134 || k == 136 || k == 146 || k == 154 || k == 156 || k == 160 ||
             163 <= k <= 164 || 169 <= k <= 170 || k == 173 || k == 230) ==> Present(k)
  {
    hide Trie, Present;
    Subtrie238(0x7fffa, k); Subtrie251(0x7fffb, k); Index(237, 251, 266, c, 18);
  }

  lemma Subtrie221(c: nat, k: byte)
    requires c == 0x1fffe
    ensures Trie(221, 266, c, 17)
    ensures (k == 129 || 132 <= k <= 134 || k == 136 || k == 146 || k == 154 || k == 156 || k == 160 ||
             163 <= k <= 164 || 169 <= k <= 170 || k == 173 || 176 <= k <= 177 || k == 179 || k == 209 ||
             216 <= k <= 217 || k == 227 || 229 <= k <= 230) ==> Present(k)
  {
    hide Trie, Present;
    Subtrie222(0x3fffc, k); Subtrie237(0x3fffd, k); Index(221, 237, 266, c, 17);
  }

  lemma Subtrie276(c: nat, k: byte)
    requires c == 0xffff9
    ensures Trie(276, 283, c, 20)
    ensures (k == 187 || 189 <= k <= 190 || k == 196) ==> Present(k)
  {
    hide Trie, Present;
    Leaf(278, 187, 0x3fffe4, 22); Leaf(279, 189, 0x3fffe5, 22); Index(277, 279, 280, 0x1ffff2, 21);
    Leaf(281, 190, 0x3fffe6, 22); Leaf(282, 196, 0x3fffe7, 22); Index(280, 282, 283, 0x1ffff3, 21);
    Index(276, 280, 283, c, 20);
  }

  lemma Subtrie268(c: nat, k: byte)
    requires c == 0x7fffc
    ensures Trie(268, 283, c, 19)
    ensures (k == 178 || k == 181 || 185 <= k <= 187 || 189 <= k <= 190 || k == 196) ==> Present(k)
  {
    hide Trie, Present;
    Leaf(271, 178, 0x3fffe0, 22); Leaf(272, 181, 0x3fffe1, 22); Index(270, 272, 273, 0x1ffff0, 21);
    Leaf(274, 185, 0x3fffe2, 22); Leaf(275, 186, 0x3fffe3, 22); Index(273, 275, 276, 0x1ffff1, 21);
    Index(269, 273, 276, 0xffff8, 20); Subtrie276(0xffff9, k); Index(268, 276, 283, c, 19);
  }

  lemma Subtrie299(c: nat, k: byte)
    requires c == 0x1ffff7
    ensures Trie(299, 306, c, 21)
    ensures (139 <= k <= 141 || k == 143) ==> Present(k)
  {
    hide Trie, Present;
    Leaf(301, 139, 0x7fffdc, 23); Leaf(302, 140, 0x7fffdd, 23); Index(300, 302, 303, 0x3fffee, 22);
    Leaf(304, 141, 0x7fffde, 23); Leaf(305, 143, 0x7fffdf, 23); Index(303, 305, 306, 0x3fffef, 22);
    Index(299, 303, 306, c, 21);
  }

  lemma Subtrie291(c: nat, k: byte)
    requires c == 0xffffb
    ensures Trie(291, 306, c, 20)
    ensures (k == 1 || k == 135 || 137 <= k <= 141 || k == 143) ==> Present(k)
  {
    hide Trie, Present;
    Leaf(294, 1, 0x7fffd8, 23); Leaf(295, 135, 0x7fffd9, 23); Index(293, 295, 296, 0x3fffec, 22);
    Leaf(297, 137, 0x7fffda, 23); Leaf(298, 138, 0x7fffdb, 23); Index(296, 298, 299, 0x3fffed, 22);
    Index(292, 296, 299, 0x1ffff6, 21); Subtrie299(0x1ffff7, k); Index(291, 299, 306, c, 20);
  }

  lemma Subtrie283(c: nat, k: byte)
    requires c == 0x7fffd
    ensures Trie(283, 306, c, 19)
    ensures (k == 1 || k == 135 || 137 <= k <= 141 || k == 143 || k == 198 || k == 228 || 232 <= k <= 233) ==> Present(k)
  {
    hide Trie, Present;
    Leaf(286, 198, 0x3fffe8, 22); Leaf(287, 228, 0x3fffe9, 22); Index(285, 287, 288, 0x1ffff4, 21);
    Leaf(289, 232, 0x3fffea, 22); Leaf(290, 233, 0x3fffeb, 22); Index(288, 290, 291, 0x1ffff5, 21);
    Index(284, 288, 291, 0xffffa, 20); Subtrie291(0xffffb, k); Index(283, 291, 306, c, 19);
  }

  lemma Subtrie267(c: nat, k: byte)
    requires c == 0x3fffe
    ensures Trie(267, 306, c, 18)
    ensures (k == 1 || k == 135 || 137 <= k <= 141 || k == 143 || k == 178 || k == 181 || 185 <= k <= 187 ||
             189 <= k <= 190 || k == 196 || k == 198 || k == 228 || 232 <= k <= 233) ==> Present(k)
  {
    hide Trie, Present;
    Subtrie268(0x7fffc, k); Subtrie283(0x7fffd, k); Index(267, 283, 306, c, 18);
  }

  lemma Subtrie316(c: nat, k: byte)
    requires c == 0x1ffff9
    ensures Trie(316, 323, c, 21)
    ensures (k == 152 || k == 155 || 157 <= k <= 158) ==> Present(k)
  {
    hide Trie, Present;
    Leaf(318, 152, 0x7fffe4, 23); Leaf(319, 155, 0x7fffe5, 23); Index(317, 319, 320, 0x3ffff2, 22);
    Leaf(321, 157, 0x7fffe6, 23); Leaf(322, 158, 0x7fffe7, 23); Index(320, 322, 323, 0x3ffff3, 22);
    Index(316, 320, 323, c, 21);
  }

  lemma Subtrie308(c: nat, k: byte)
    requires c == 0xffffc
    ensures Trie(308, 323, c, 20)
    ensures (k == 147 || 149 <= k <= 152 || k == 155 || 157 <= k <= 158) ==> Present(k)
  {
    hide Trie, Present;
    Leaf(311, 147, 0x7fffe0, 23); Leaf(312, 149, 0x7fffe1, 23); Index(310, 312, 313, 0x3ffff0, 22);
    Leaf(314, 150, 0x7fffe2, 23); Leaf(315, 151, 0x7fffe3, 23); Index(313, 315, 316, 0x3ffff1, 22);
    Index(309, 313, 316, 0x1ffff8, 21); Subtrie316(0x1ffff9, k); Index(308, 316, 323, c, 20);
  }

  lemma Subtrie331(c: nat, k: byte)
    requires c == 0x1ffffb
    ensures Trie(331, 338, c, 21)
    ensures (k == 175 || k == 180 || 182 <= k <= 183) ==> Present(k)
  {
    hide Trie, Present;
    Leaf(333, 175, 0x7fffec, 23); Leaf(334, 180, 0x7fffed, 23); Index(332, 334, 335, 0x3ffff6, 22);
    Leaf(336, 182, 0x7fffee, 23); Leaf(337, 183, 0x7fffef, 23); Index(335, 337, 338, 0x3ffff7, 22);
    Index(331, 335, 338, c, 21);
  }

  lemma Subtrie323(c: nat, k: byte)
    requires c == 0xffffd
    ensures Trie(323, 338, c, 20)
    ensures (165 <= k <= 166 || k == 168 || 174 <= k <= 175 || k == 180 || 182 <= k <= 183) ==> Present(k)
  {
    hide Trie, Present;
    Leaf(326, 165, 0x7fffe8, 23); Leaf(327, 166, 0x7fffe9, 23); Index(325, 327, 328, 0x3ffff4, 22);
    Leaf(329, 168, 0x7fffea, 23); Leaf(330, 174, 0x7fffeb, 23); Index(328, 330, 331, 0x3ffff5, 22);
    Index(324, 328, 331, 0x1ffffa, 21); Subtrie331(0x1ffffb, k); Index(323, 331, 338, c, 20);
  }

  lemma Subtrie307(c: nat, k: byte)
    requires c == 0x7fffe
    ensures Trie(307, 338, c, 19)
    ensures (k == 147 || 149 <= k <= 152 || k == 155 || 157 <= k <= 158 || 165 <= k <= 166 || k == 168 ||
             174 <= k <= 175 || k == 180 || 182 <= k <= 183) ==> Present(k)
  {
    hide Trie, Present;
    Subtrie308(0xffffc, k); Subtrie323(0xffffd, k); Index(307, 323, 338, c, 19);
  }

  lemma Subtrie347(c: nat, k: byte)
    requires c == 0x1ffffd
    ensures Trie(347, 360, c, 21)
    ensures (k == 9 || k == 142 || 144 <= k <= 145 || k == 148 || k == 159 || k == 239) ==> Present(k)
  {
    hide Trie, Present;
    Leaf(349, 239, 0x7ffff4, 23); Leaf(351, 9, 0xffffea, 24); Leaf(352, 142, 0xffffeb, 24);
    Index(350, 352, 353, 0x7ffff5, 23); Index(348, 350, 353, 0x3ffffa, 22); Leaf(355, 144, 0xffffec, 24);
    Leaf(356, 145, 0xffffed, 24); Index(354, 356, 357, 0x7ffff6, 23); Leaf(358, 148, 0xffffee, 24);
    Leaf(359, 159, 0xffffef, 24); Index(357, 359, 360, 0x7ffff7, 23); Index(353, 357, 360, 0x3ffffb, 22);
    Index(347, 353, 360, c, 21);
  }

  lemma Subtrie339(c: nat, k: byte)
    requires c == 0xffffe
    ensures Trie(339, 360, c, 20)
    ensures (k == 9 || k == 142 || 144 <= k <= 145 || k == 148 || k == 159 || k == 188 || k == 191 || k == 197 ||
             k == 231 || k == 239) ==> Present(k)
  {
    hide Trie, Present;
    Leaf(342, 188, 0x7ffff0, 23); Leaf(343, 191, 0x7ffff1, 23); Index(341, 343, 344, 0x3ffff8, 22);
    Leaf(345, 197, 0x7ffff2, 23); Leaf(346, 231, 0x7ffff3, 23); Index(344, 346, 347, 0x3ffff9, 22);
    Index(340, 344, 347, 0x1ffffc, 21); Subtrie347(0x1ffffd, k); Index(339, 347, 360, c, 20);
  }

  lemma Subtrie369(c: nat, k: byte)
    requires c == 0x3ffffd
    ensures Trie(369, 380, c, 22)
    ensures (k == 199 || k == 207 || 234 <= k <= 237) ==> Present(k)
  {
    hide Trie, Present;
    Leaf(371, 236, 0xfffff4, 24); Leaf(372, 237, 0xfffff5, 24); Index(370, 372, 373, 0x7ffffa, 23);
    Leaf(375, 199, 0x1ffffec, 25); Leaf(376, 207, 0x1ffffed, 25); Index(374, 376, 377, 0xfffff6, 24);
    Leaf(378, 234, 0x1ffffee, 25); Leaf(379, 235, 0x1ffffef, 25); Index(377, 379, 380, 0xfffff7, 24);
    Index(373, 377, 380, 0x7ffffb, 23); Index(369, 373, 380, c, 22);
  }

  lemma Subtrie361(c: nat, k: byte)
    requires c == 0x1ffffe
    ensures Trie(361, 380, c, 21)
    ensures (k == 171 || k == 199 || 206 <= k <= 207 || k == 215 || k == 225 || 234 <= k <= 237) ==> Present(k)
  {
    hide Trie, Present;
    Leaf(364, 171, 0xfffff0, 24); Leaf(365, 206, 0xfffff1, 24); Index(363, 365, 366, 0x7ffff8, 23);
    Leaf(367, 215, 0xfffff2, 24); Leaf(368, 225, 0xfffff3, 24); Index(366, 368, 369, 0x7ffff9, 23);
    Index(362, 366, 369, 0x3ffffc, 22); Subtrie369(0x3ffffd, k); Index(361, 369, 380, c, 21);
  }

  lemma Subtrie390(c: nat, k: byte)
    requires c == 0xfffff9
    ensures Trie(390, 397, c, 24)
    ensures (k == 202 || k == 205 || k == 210 || k == 213) ==> Present(k)
  {
    hide Trie, Present;
    Leaf(392, 202, 0x3ffffe4, 26); Leaf(393, 205, 0x3ffffe5, 26); Index(391, 393, 394, 0x1fffff2, 25);
    Leaf(395, 210, 0x3ffffe6, 26); Leaf(396, 213, 0x3ffffe7, 26); Index(394, 396, 397, 0x1fffff3, 25);
    Index(390, 394, 397, c, 24);
  }

  lemma Subtrie382(c: nat, k: byte)
    requires c == 0x7ffffc
    ensures Trie(382, 397, c, 23)
    ensures (192 <= k <= 193 || 200 <= k <= 202 || k == 205 || k == 210 || k == 213) ==> Present(k)
  {
    hide Trie, Present;
    Leaf(385, 192, 0x3ffffe0, 26); Leaf(386, 193, 0x3ffffe1, 26); Index(384, 386, 387, 0x1fffff0, 25);
    Leaf(388, 200, 0x3ffffe2, 26); Leaf(389, 201, 0x3ffffe3, 26); Index(387, 389, 390, 0x1fffff1, 25);
    Index(383, 387, 390, 0xfffff8, 24); Subtrie390(0xfffff9, k); Index(382, 390, 397, c, 23);
  }

  lemma Subtrie405(c: nat, k: byte)
    requires c == 0xfffffb
    ensures Trie(405, 414, c, 24)
    ensures (203 <= k <= 204 || 242 <= k <= 243 || k == 255) ==> Present(k)
  {
    hide Trie, Present;
    Leaf(407, 242, 0x3ffffec, 26); Leaf(408, 243, 0x3ffffed, 26); Index(406, 408, 409, 0x1fffff6, 25);
    Leaf(410, 255, 0x3ffffee, 26); Leaf(412, 203, 0x7ffffde, 27); Leaf(413, 204, 0x7ffffdf, 27);
    Index(411, 413, 414, 0x3ffffef, 26); Index(409, 411, 414, 0x1fffff7, 25); Index(405, 409, 414, c, 24);
  }

  lemma Subtrie397(c: nat, k: byte)
    requires c == 0x7ffffd
    ensures Trie(397, 414, c, 23)
    ensures (203 <= k <= 204 || 218 <= k <= 219 || k == 238 || k == 240 || 242 <= k <= 243 || k == 255) ==> Present(k)
  {
    hide Trie, Present;
    Leaf(400, 218, 0x3ffffe8, 26); Leaf(401, 219, 0x3ffffe9, 26); Index(399, 401, 402, 0x1fffff4, 25);
    Leaf(403, 238, 0x3ffffea, 26); Leaf(404, 240, 0x3ffffeb, 26); Index(402, 404, 405, 0x1fffff5, 25);
    Index(398, 402, 405, 0xfffffa, 24); Subtrie405(0xfffffb, k); Index(397, 405, 414, c, 23);
  }

  lemma Subtrie381(c: nat, k: byte)
    requires c == 0x3ffffe
    ensures Trie(381, 414, c, 22)
    ensures (192 <= k <= 193 || 200 <= k <= 205 || k == 210 || k == 213 || 218 <= k <= 219 || k == 238 ||
             k == 240 || 242 <= k <= 243 || k == 255) ==> Present(k)
  {
    hide Trie, Present;
    Subtrie382(0x7ffffc, k); Subtrie397(0x7ffffd, k); Index(381, 397, 414, c, 22);
  }

  lemma Subtrie424(c: nat, k: byte)
    requires c == 0x1fffff9
    ensures Trie(424, 431, c, 25)
    ensures (222 <= k <= 223 || k == 241 || k == 244) ==> Present(k)
  {
    hide Trie, Present;
    Leaf(426, 222, 0x7ffffe4, 27); Leaf(427, 223, 0x7ffffe5, 27); Index(425, 427, 428, 0x3fffff2, 26);
    Leaf(429, 241, 0x7ffffe6, 27); Leaf(430, 244, 0x7ffffe7, 27); Index(428, 430, 431, 0x3fffff3, 26);
    Index(424, 428, 431, c, 25);
  }

  lemma Subtrie416(c: nat, k: byte)
    requires c == 0xfffffc
    ensures Trie(416, 431, c, 24)
    ensures (211 <= k <= 212 || k == 214 || 221 <= k <= 223 || k == 241 || k == 244) ==> Present(k)
  {
    hide Trie, Present;
    Leaf(419, 211, 0x7ffffe0, 27); Leaf(420, 212, 0x7ffffe1, 27); Index(418, 420, 421, 0x3fffff0, 26);
    Leaf(422, 214, 0x7ffffe2, 27); Leaf(423, 221, 0x7ffffe3, 27); Index(421, 423, 424, 0x3fffff1, 26);
    Index(417, 421, 424, 0x1fffff8, 25); Subtrie424(0x1fffff9, k); Index(416, 424, 431, c, 24);
  }

  lemma Subtrie439(c: nat, k: byte)
    requires c == 0x1fffffb
    ensures Trie(439, 446, c, 25)
    ensures 250 <= k <= 253 ==> Present(k)
  {
    hide Trie, Present;
    Leaf(441, 250, 0x7ffffec, 27); Leaf(442, 251, 0x7ffffed, 27); Index(440, 442, 443, 0x3fffff6, 26);
    Leaf(444, 252, 0x7ffffee, 27); Leaf(445, 253, 0x7ffffef, 27); Index(443, 445, 446, 0x3fffff7, 26);
    Index(439, 443, 446, c, 25);
  }

  lemma Subtrie431(c: nat, k: byte)
    requires c == 0xfffffd
    ensures Trie(431, 446, c, 24)
    ensures (245 <= k <= 248 || 250 <= k <= 253) ==> Present(k)
  {
    hide Trie, Present;
    Leaf(434, 245, 0x7ffffe8, 27); Leaf(435, 246, 0x7ffffe9, 27); Index(433, 435, 436, 0x3fffff4, 26);
    Leaf(437, 247, 0x7ffffea, 27); Leaf(438, 248, 0x7ffffeb, 27); Index(436, 438, 439, 0x3fffff5, 26);
    Index(432, 436, 439, 0x1fffffa, 25); Subtrie439(0x1fffffb, k); Index(431, 439, 446, c, 24);
  }

  lemma Subtrie415(c: nat, k: byte)
    requires c == 0x7ffffe
    ensures Trie(415, 446, c, 23)
    ensures (211 <= k <= 212 || k == 214 || 221 <= k <= 223 || k == 241 || 244 <= k <= 248 || 250 <= k <= 253) ==> Present(k)
  {
    hide Trie, Present;
    Subtrie416(0xfffffc, k); Subtrie431(0xfffffd, k); Index(415, 431, 446, c, 23);
  }

  lemma Subtrie448(c: nat, k: byte)
    requires c == 0x1fffffc
    ensures Trie(448, 461, c, 25)
    ensures (2 <= k <= 7 || k == 254) ==> Present(k)
  {
    hide Trie, Present;
    Leaf(450, 254, 0x7fffff0, 27); Leaf(452, 2, 0xfffffe2, 28); Leaf(453, 3, 0xfffffe3, 28);
    Index(451, 453, 454, 0x7fffff1, 27); Index(449, 451, 454, 0x3fffff8, 26); Leaf(456, 4, 0xfffffe4, 28);
    Leaf(457, 5, 0xfffffe5, 28); Index(455, 457, 458, 0x7fffff2, 27); Leaf(459, 6, 0xfffffe6, 28);
    Leaf(460, 7, 0xfffffe7, 28); Index(458, 460, 461, 0x7fffff3, 27); Index(454, 458, 461, 0x3fffff9, 26);
    Index(448, 454, 461, c, 25);
  }

  lemma Subtrie469(c: nat, k: byte)
    requires c == 0x3fffffb
    ensures Trie(469, 476, c, 26)
    ensures 15 <= k <= 18 ==> Present(k)
  {
    hide Trie, Present;
    Leaf(471, 15, 0xfffffec, 28); Leaf(472, 16, 0xfffffed, 28); Index(470, 472, 473, 0x7fffff6, 27);
    Leaf(474, 17, 0xfffffee, 28); Leaf(475, 18, 0xfffffef, 28); Index(473, 475, 476, 0x7fffff7, 27);
    Index(469, 473, 476, c, 26);
  }

  lemma Subtrie461(c: nat, k: byte)
    requires c == 0x1fffffd
    ensures Trie(461, 476, c, 25)
    ensures (k == 8 || 11 <= k <= 12 || 14 <= k <= 18) ==> Present(k)
  {
    hide Trie, Present;
    Leaf(464, 8, 0xfffffe8, 28); Leaf(465, 11, 0xfffffe9, 28); Index(463, 465, 466, 0x7fffff4, 27);
    Leaf(467, 12, 0xfffffea, 28); Leaf(468, 14, 0xfffffeb, 28); Index(466, 468, 469, 0x7fffff5, 27);
    Index(462, 466, 469, 0x3fffffa, 26); Subtrie469(0x3fffffb, k); Index(461, 469, 476, c, 25);
  }

  lemma Subtrie447(c: nat, k: byte)
    requires c == 0xfffffe
    ensures Trie(447, 476, c, 24)
    ensures (2 <= k <= 8 || 11 <= k <= 12 || 14 <= k <= 18 || k == 254) ==> Present(k)
  {
    hide Trie, Present;
    Subtrie448(0x1fffffc, k); Subtrie461(0x1fffffd, k); Index(447, 461, 476, c, 24);
  }

  lemma Subtrie485(c: nat, k: byte)
    requires c == 0x3fffffd
    ensures Trie(485, 492, c, 26)
    ensures 24 <= k <= 27 ==> Present(k)
  {
    hide Trie, Present;
    Leaf(487, 24, 0xffffff4, 28); Leaf(488, 25, 0xffffff5, 28); Index(486, 488, 489, 0x7fffffa, 27);
    Leaf(490, 26, 0xffffff6, 28); Leaf(491, 27, 0xffffff7, 28); Index(489, 491, 492, 0x7fffffb, 27);
    Index(485, 489, 492, c, 26);
  }

  lemma Subtrie477(c: nat, k: byte)
    requires c == 0x1fffffe
    ensures Trie(477, 492, c, 25)
    ensures (19 <= k <= 21 || 23 <= k <= 27) ==> Present(k)
  {
    hide Trie, Present;
    Leaf(480, 19, 0xffffff0, 28); Leaf(481, 20, 0xffffff1, 28); Index(479, 481, 482, 0x7fffff8, 27);
    Leaf(483, 21, 0xffffff2, 28); Leaf(484, 23, 0xffffff3, 28); Index(482, 484, 485, 0x7fffff9, 27);
    Index(478, 482, 485, 0x3fffffc, 26); Subtrie485(0x3fffffd, k); Index(477, 485, 492, c, 25);
  }

  lemma Subtrie504(c: nat, k: byte)
    requires c == 0x7ffffff
    ensures Trie(504, 513, c, 27)
    ensures (k == 10 || k == 13 || k == 22 || k == 249) ==> Present(k)
  {
    hide Trie, Present;
    Leaf(505, 249, 0xffffffe, 28); Leaf(508, 10, 0x3ffffffc, 30); Leaf(509, 13, 0x3ffffffd, 30);
    Index(507, 509, 510, 0x1ffffffe, 29); Leaf(511, 22, 0x3ffffffe, 30); EndOfString(0x3fffffff, 30);
    Index(510, 512, 513, 0x1fffffff, 29); Index(506, 510, 513, 0xfffffff, 28); Index(504, 506, 513, c, 27);
  }

  lemma Subtrie500(c: nat, k: byte)
    requires c == 0x3ffffff
    ensures Trie(500, 513, c, 26)
    ensures (k == 10 || k == 13 || k == 22 || k == 127 || k == 220 || k == 249) ==> Present(k)
  {
    hide Trie, Present;
    Leaf(502, 127, 0xffffffc, 28); Leaf(503, 220, 0xffffffd, 28); Index(501, 503, 504, 0x7fffffe, 27);
    Subtrie504(0x7ffffff, k); Index(500, 504, 513, c, 26);
  }

  lemma Subtrie492(c: nat, k: byte)
    requires c == 0x1ffffff
    ensures Trie(492, 513, c, 25)
    ensures (k == 10 || k == 13 || k == 22 || 28 <= k <= 31 || k == 127 || k == 220 || k == 249) ==> Present(k)
  {
    hide Trie, Present;
    Leaf(495, 28, 0xffffff8, 28); Leaf(496, 29, 0xffffff9, 28); Index(494, 496, 497, 0x7fffffc, 27);
    Leaf(498, 30, 0xffffffa, 28); Leaf(499, 31, 0xffffffb, 28); Index(497, 499, 500, 0x7fffffd, 27);
    Index(493, 497, 500, 0x3fffffe, 26); Subtrie500(0x3ffffff, k); Index(492, 500, 513, c, 25);
  }

  lemma Subtrie476(c: nat, k: byte)
    requires c == 0xffffff
    ensures Trie(476, 513, c, 24)
    ensures (k == 10 || k == 13 || 19 <= k <= 31 || k == 127 || k == 220 || k == 249) ==> Present(k)
  {
    hide Trie, Present;
    Subtrie477(0x1fffffe, k); Subtrie492(0x1ffffff, k); Index(476, 492, 513, c, 24);
  }

  lemma Subtrie414(c: nat, k: byte)
    requires c == 0x3fffff
    ensures Trie(414, 513, c, 22)
    ensures (2 <= k <= 8 || 10 <= k <= 31 || k == 127 || 211 <= k <= 212 || k == 214 || 220 <= k <= 223 ||
             k == 241 || 244 <= k <= 254) ==> Present(k)
  {
    hide Trie, Present;
    Subtrie415(0x7ffffe, k); Subtrie447(0xfffffe, k); Subtrie476(0xffffff, k); Index(446, 476, 513, 0x7fffff, 23);
    Index(414, 446, 513, c, 22);
  }

  lemma Subtrie360(c: nat, k: byte)
    requires c == 0xfffff
    ensures Trie(360, 513, c, 20)
    ensures (2 <= k <= 8 || 10 <= k <= 31 || k == 127 || k == 171 || 192 <= k <= 193 || 199 <= k <= 207 ||
             210 <= k <= 215 || 218 <= k <= 223 || k == 225 || 234 <= k <= 238 || 240 <= k <= 255) ==> Present(k)
  {
    hide Trie, Present;
    Subtrie361(0x1ffffe, k); Subtrie381(0x3ffffe, k); Subtrie414(0x3fffff, k); Index(380, 414, 513, 0x1fffff, 21);
    Index(360, 380, 513, c, 20);
  }

  lemma Subtrie266(c: nat, k: byte)
    requires c == 0x1ffff
    ensures Trie(266, 513, c, 17)
    ensures (1 <= k <= 31 || k == 127 || k == 135 || 137 <= k <= 145 || 147 <= k <= 152 || k == 155 ||
             157 <= k <= 159 || 165 <= k <= 166 || k == 168 || k == 171 || 174 <= k <= 175 || k == 178 ||
             180 <= k <= 183 || 185 <= k <= 193 || 196 <= k <= 207 || 210 <= k <= 215 || 218 <= k <= 223 ||
             k == 225 || k == 228 || 231 <= k <= 255) ==> Present(k)
  {
    hide Trie, Present;
    Subtrie267(0x3fffe, k); Subtrie307(0x7fffe, k); Subtrie339(0xffffe, k); Subtrie360(0xfffff, k);
    Index(338, 360, 513, 0x7ffff, 19); Index(306, 338, 513, 0x3ffff, 18); Index(266, 306, 513, c, 17);
  }

  lemma Subtrie220(c: nat, k: byte)
    requires c == 0xffff
    ensures Trie(220, 513, c, 16)
    ensures (1 <= k <= 31 || k == 127 || k == 129 || 132 <= k <= 152 || 154 <= k <= 160 || 163 <= k <= 166 ||
             168 <= k <= 171 || 173 <= k <= 183 || 185 <= k <= 193 || 196 <= k <= 207 || 209 <= k <= 223 ||
             k == 225 || 227 <= k <= 255) ==> Present(k)
  {
    hide Trie, Present;
    Subtrie221(0x1fffe, k); Subtrie266(0x1ffff, k); Index(220, 266, 513, c, 16);
  }

  lemma Subtrie184(c: nat, k: byte)
    requires c == 0x1fff
    ensures Trie(184, 513, c, 13)
    ensures (1 <= k <= 31 || k == 60 || k == 92 || k == 96 || k == 123 || 127 <= k <= 255) ==> Present(k)
  {
    hide Trie, Present;
    Leaf(186, 60, 0x7ffc, 15); Leaf(187, 96, 0x7ffd, 15); Index(185, 187, 188, 0x3ffe, 14);
    Leaf(189, 123, 0x7ffe, 15); Subtrie191(0xfffe, k); Subtrie220(0xffff, k); Index(190, 220, 513, 0x7fff, 15);
    Index(188, 190, 513, 0x3fff, 14); Index(184, 188, 513, c, 13);
  }

  lemma Subtrie176(c: nat, k: byte)
    requires c == 0x7ff
    ensures Trie(176, 513, c, 11)
    ensures (1 <= k <= 31 || k == 60 || 92 <= k <= 94 || k == 96 || k == 123 || 125 <= k <= 255) ==> Present(k)
  {
    hide Trie, Present;
    Leaf(178, 93, 0x1ffc, 13); Leaf(179, 126, 0x1ffd, 13); Index(177, 179, 180, 0xffe, 12);
    Leaf(182, 94, 0x3ffc, 14); Leaf(183, 125, 0x3ffd, 14); Index(181, 183, 184, 0x1ffe, 13); Subtrie184(0x1fff, k);
    Index(180, 184, 513, 0xfff, 12); Index(176, 180, 513, c, 11);
  }

  lemma Subtrie168(c: nat, k: byte)
    requires c == 0x3ff
    ensures Trie(168, 513, c, 10)
    ensures (k <= 31 || k == 36 || k == 60 || k == 64 || 91 <= k <= 94 || k == 96 || k == 123 || 125 <= k <= 255) ==> Present(k)
  {
    hide Trie, Present;
    Leaf(171, 0, 0x1ff8, 13); Leaf(172, 36, 0x1ff9, 13); Index(170, 172, 173, 0xffc, 12); Leaf(174, 64, 0x1ffa, 13);
    Leaf(175, 91, 0x1ffb, 13); Index(173, 175, 176, 0xffd, 12); Index(169, 173, 176, 0x7fe, 11);
    Subtrie176(0x7ff, k); Index(168, 176, 513, c, 10);
  }

  lemma Subtrie156(c: nat, k: byte)
    requires c == 0xff
    ensures Trie(156, 513, c, 8)
    ensures (k <= 31 || 35 <= k <= 36 || k == 39 || k == 43 || k == 60 || 62 <= k <= 64 || 91 <= k <= 94 ||
             k == 96 || 123 <= k <= 255) ==> Present(k)
  {
    hide Trie, Present;
    Leaf(158, 63, 0x3fc, 10); Leaf(160, 39, 0x7fa, 11); Leaf(161, 43, 0x7fb, 11); Index(159, 161, 162, 0x3fd, 10);
    Index(157, 159, 162, 0x1fe, 9); Leaf(164, 124, 0x7fc, 11); Leaf(166, 35, 0xffa, 12); Leaf(167, 62, 0xffb, 12);
    Index(165, 167, 168, 0x7fd, 11); Index(163, 165, 168, 0x3fe, 10); Subtrie168(0x3ff, k);
    Index(162, 168, 513, 0x1ff, 9); Index(156, 162, 513, c, 8);
  }

  lemma Subtrie144(c: nat, k: byte)
    requires c == 0x3f
    ensures Trie(144, 513, c, 6)
    ensures (k <= 31 || 33 <= k <= 36 || 39 <= k <= 41 || k == 43 || k == 60 || 62 <= k <= 64 || k == 88 ||
             90 <= k <= 94 || k == 96 || 123 <= k <= 255) ==> Present(k)
  {
    hide Trie, Present;
    Leaf(146, 88, 0xfc, 8); Leaf(147, 90, 0xfd, 8); Index(145, 147, 148, 0x7e, 7); Leaf(151, 33, 0x3f8, 10);
    Leaf(152, 34, 0x3f9, 10); Index(150, 152, 153, 0x1fc, 9); Leaf(154, 40, 0x3fa, 10); Leaf(155, 41, 0x3fb, 10);
    Index(153, 155, 156, 0x1fd, 9); Index(149, 153, 156, 0xfe, 8); Subtrie156(0xff, k);
    Index(148, 156, 513, 0x7f, 7); Index(144, 148, 513, c, 6);
  }

  lemma Subtrie136(c: nat, k: byte)
    requires c == 0x1f
    ensures Trie(136, 513, c, 5)
    ensures (k <= 31 || 33 <= k <= 36 || 38 <= k <= 44 || 59 <= k <= 60 || 62 <= k <= 64 || k == 88 ||
             90 <= k <= 94 || k == 96 || 123 <= k <= 255) ==> Present(k)
  {
    hide Trie, Present;
    Leaf(139, 38, 0xf8, 8); Leaf(140, 42, 0xf9, 8); Index(138, 140, 141, 0x7c, 7); Leaf(142, 44, 0xfa, 8);
    Leaf(143, 59, 0xfb, 8); Index(141, 143, 144, 0x7d, 7); Index(137, 141, 144, 0x3e, 6); Subtrie144(0x3f, k);
    Index(136, 144, 513, c, 5);
  }

  lemma Subtrie128(c: nat, k: byte)
    requires c == 0xf
    ensures Trie(128, 513, c, 4)
    ensures (k <= 31 || 33 <= k <= 36 || 38 <= k <= 44 || 59 <= k <= 60 || 62 <= k <= 64 || k == 88 ||
             90 <= k <= 94 || k == 96 || 119 <= k <= 255) ==> Present(k)
  {
    hide Trie, Present;
    Leaf(131, 119, 0x78, 7); Leaf(132, 120, 0x79, 7); Index(130, 132, 133, 0x3c, 6); Leaf(134, 121, 0x7a, 7);
    Leaf(135, 122, 0x7b, 7); Index(133, 135, 136, 0x3d, 6); Index(129, 133, 136, 0x1e, 5); Subtrie136(0x1f, k);
    Index(128, 136, 513, c, 4);
  }

  /** The two tables are a prefix trie in pre-order for the code of Appendix B, and every octet has a terminal. */
  lemma WellFormed(k: byte)
    ensures Trie(0, 513, 0, 0)
    ensures Present(k)
  {
    hide Trie, Present;
    Subtrie1(0x0, k); Subtrie45(0x2, k); Subtrie81(0x6, k); Subtrie113(0xe, k); Subtrie128(0xf, k);
    Index(112, 128, 513, 0x7, 3); Index(80, 112, 513, 0x3, 2); Index(44, 80, 513, 0x1, 1); Index(0, 44, 513, 0, 0);
  }

  lemma Children(i: nat, code: nat, length: nat)
    requires Node(code, length) == i < 512 && IsIndex(i)
    ensures Node(2 * code, length + 1) == i + 1 && Node(2 * code + 1, length + 1) == i + Val(i) as int
  {
    hide IsIndex, Val, Code, CodeLength;
  }

  /** From the root of a subtrie, the rest of a code leads to its terminal. */
  lemma {:induction false} CodeInSubtrie(i: nat, end: nat, code: nat, length: nat, j: nat)
    requires Trie(i, end, code, length) && Node(code, length) == i
    requires i <= j < end && j < 512 && !IsIndex(j)
    ensures Node(Code(Val(j)), CodeLength(Val(j))) == j
    decreases end - i
  {
    hide IsIndex, Val, Code, CodeLength, Node;
    if IsIndex(i) {
      var m := i + Val(i) as int;
      Children(i, code, length);
      if j < m {
        CodeInSubtrie(i + 1, m, 2 * code, length + 1, j);
      } else {
        CodeInSubtrie(m, end, 2 * code + 1, length + 1, j);
      }
    }
  }

  /** Along the bits of its code, every octet is reached at a terminal that holds it. */
  lemma EveryCode(k: byte)
    ensures Terminal(Node(Code(k), CodeLength(k)), k)
  {
    hide Trie, IsIndex, Val, Code, CodeLength;
    WellFormed(k);
    var j: nat :| Terminal(j, k);
    assert Node(0, 0) == 0;
    CodeInSubtrie(0, 513, 0, 0, j);
  }
}
