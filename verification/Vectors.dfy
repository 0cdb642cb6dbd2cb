/** Bytes that are fixed by the standards: the examples of section A.1 of RFC 9000 and of Appendix C of RFC 7541, and
    small frames and header blocks, byte by byte. */
module Vectors {
  import opened Wrappers
  import opened Varint
  import StreamFrames
  import StreamSender
  import AckFrames
  import Datagram
  import SackList
  import PrefixInt
  import Qpack
  import QpackBlocks
  import H3Stream
  import Huffman
  import HuffmanTables
  import QuicPerf

  /** The four sample integers of RFC 9000, and the last one in a field that is longer than needed */
  lemma Varints()
    ensures Encoding(151288809941952652) == [0xC2, 0x19, 0x7C, 0x5E, 0xFF, 0x14, 0xE8, 0x8C]
    ensures Encoding(494878333) == [0x9D, 0x7F, 0x3E, 0x7D]
    ensures Encoding(15293) == [0x7B, 0xBD]
    ensures Encoding(37) == [0x25]
    ensures Decoding([0x40, 0x25]) == Some((37, 2))
  {
    LongVarint();
    MiddleVarints();
    PaddedVarint();
    ShortVarint(37);
    hide Encoding;
  }

  lemma MiddleVarints()
    ensures Encoding(494878333) == [0x9D, 0x7F, 0x3E, 0x7D] && Encoding(15293) == [0x7B, 0xBD]
  {
    Bytes4(494878333 + 0x8000_0000);
    Bytes2(15293 + 0x4000);
  }

  lemma LongVarint()
    ensures Encoding(151288809941952652) == [0xC2, 0x19, 0x7C, 0x5E, 0xFF, 0x14, 0xE8, 0x8C]
  {
    Bytes4(0xC219_7C5E);
  }

  lemma PaddedVarint()
    ensures Decoding([0x40, 0x25]) == Some((37, 2))
  {
    var s: seq<byte> := [0x40, 0x25];
    var t: seq<byte> := [0x00, 0x25];
    assert DecodedLength(s[0]) == 2;
    assert [s[0] % 64] + s[1..2] == t;
    assert t[..1] == [0x00];
    assert FromBigEndian([0x00]) == 0 by {
      var z: seq<byte> := [0x00];
      assert z[..0] == [];
    }
    assert FromBigEndian(t) == 0x25;
  }

  lemma Bytes2(v: nat)
    ensures BigEndian(v, 2) == [v / 256 % 256, v % 256]
  {
    assert BigEndian(v / 256, 1) == BigEndian(v / 256 / 256, 0) + [v / 256 % 256];
  }

  lemma Bytes4(v: nat)
    ensures BigEndian(v, 4) == [v / 256 / 256 / 256 % 256, v / 256 / 256 % 256, v / 256 % 256, v % 256]
  {
    Bytes2(v / 256 / 256);
    assert BigEndian(v / 256, 3) == BigEndian(v / 256 / 256, 2) + [v / 256 % 256];
  }

  /** STREAM frames: each of the three flags alone, none, and all */
  lemma Streams()
    ensures StreamFrames.FrameBytes(StreamFrames.Segment(0, 0, [0xAA, 0xBB], false), false) == [0x08, 0x00, 0xAA, 0xBB]
    ensures StreamFrames.FrameBytes(StreamFrames.Segment(0, 0, [0xAA], true), false) == [0x09, 0x00, 0xAA]
    ensures StreamFrames.FrameBytes(StreamFrames.Segment(0, 0, [0xAA], false), true) == [0x0A, 0x00, 0x01, 0xAA]
    ensures StreamFrames.FrameBytes(StreamFrames.Segment(4, 5, [0xAA], false), false) == [0x0C, 0x04, 0x05, 0xAA]
    ensures StreamFrames.FrameBytes(StreamFrames.Segment(4, 5, [0xAA], true), true) == [0x0F, 0x04, 0x05, 0x01, 0xAA]
  {
    ShortVarint(0);
    ShortVarint(1);
    ShortVarint(4);
    ShortVarint(5);
    hide Encoding;
  }

  lemma ShortVarint(n: nat)
    requires n < 64
    ensures Encoding(n) == [n]
  {
  }

  /** In front of data for which five bytes are left: a length field, one byte of padding, or neither */
  lemma StreamLeads()
    ensures StreamSender.Lead(4, 0, false, 3, 5) == [0x0A, 0x04, 0x03]
    ensures StreamSender.Lead(4, 0, false, 4, 5) == [0x00, 0x08, 0x04]
    ensures StreamSender.Lead(4, 0, false, 5, 5) == [0x08, 0x04]
  {
    ShortVarint(3);
    ShortVarint(4);
    hide Encoding;
  }

  /** An ACK frame of 90 to 100 and 70 to 80 with delay 10, and one of 7 with counts */
  lemma Acks()
    ensures var ranges := [SackList.Range(70, 80)];
            && AckFrames.Descending(90, ranges)
            && AckFrames.AckBytes(10, SackList.Range(90, 100), ranges, None) == [0x02, 0x40, 0x64, 0x0A, 0x01, 0x0A, 0x08, 0x0A]
    ensures AckFrames.AckBytes(0, SackList.Range(7, 7), [], Some(AckFrames.EcnCounts(1, 2, 3)))
         == [0x03, 0x07, 0x00, 0x00, 0x00, 0x01, 0x02, 0x03]
  {
    ShortVarint(0);
    ShortVarint(1);
    ShortVarint(2);
    ShortVarint(3);
    ShortVarint(7);
    ShortVarint(8);
    ShortVarint(10);
    Bytes2(0x4064);
    assert Encoding(100) == [0x40, 0x64];
    hide Encoding;
    var ranges := [SackList.Range(70, 80)];
    assert ranges[1..] == [];
    assert AckFrames.Blocks(90, ranges) == [0x08] + [0x0A];
  }

  lemma Datagrams()
    ensures Datagram.DatagramBytes([0xAA, 0xBB], true) == [0x31, 0x02, 0xAA, 0xBB]
    ensures Datagram.DatagramBytes([0xAA, 0xBB], false) == [0x30, 0xAA, 0xBB]
    ensures H3Stream.Frame(0x01, [0xAA, 0xBB]) == [0x01, 0x02, 0xAA, 0xBB]
  {
    ShortVarint(1);
    ShortVarint(2);
    hide Encoding;
  }

  /** 42 in a prefix of seven bits, 10 in one of four, and 1337 behind one */
  lemma PrefixedIntegers()
    ensures PrefixInt.IntBytes(0x00, 0x7F, 42) == [0x2A]
    ensures PrefixInt.IntBytes(0x50, 0x0F, 10) == [0x5A]
    ensures PrefixInt.IntBytes(0x50, 0x0F, 1337) == [0x5F, 0xAA, 0x0A]
  {
    assert PrefixInt.TailBytes(10) == [0x0A];
    assert PrefixInt.TailBytes(1322) == [0xAA] + PrefixInt.TailBytes(10);
  }

  /** The blocks of requests for "/" from the host "a" by the user agent "b", and of the responses of the server "c" */
  lemma HeaderBlocks()
    ensures QpackBlocks.Request(QpackBlocks.CODE_GET, [0x2F], Some([0x61]), Some([0x62]))
         == [0x00, 0x00, 0xD1, 0xD7, 0x51, 0x01, 0x2F, 0x50, 0x01, 0x61, 0x5F, 0x50, 0x01, 0x62]
    ensures QpackBlocks.Request(QpackBlocks.CODE_POST, [0x2F], None, None) == [0x00, 0x00, 0xD4, 0xD7, 0x51, 0x01, 0x2F]
    ensures QpackBlocks.Response(QpackBlocks.CODE_200, Some([0x63])) == [0x00, 0x00, 0xD9, 0x5F, 0x4D, 0x01, 0x63]
    ensures QpackBlocks.Response(QpackBlocks.CODE_404, None) == [0x00, 0x00, 0xDB]
    ensures QpackBlocks.BadMethod(Some([0x63]))
         == [0x00, 0x00, 0x5F, 0x0C, 0x03, 0x34, 0x30, 0x35, 0x5F, 0x4D, 0x01, 0x63]
          + [0x5F, 0x3D, 0x09, 0x47, 0x45, 0x54, 0x2C, 0x20, 0x50, 0x4F, 0x53, 0x54]
  {
    IndexedLines();
    LiteralLines();
    MethodLines();
    hide QpackBlocks.Literal, QpackBlocks.Indexed, Qpack.Ascii;
  }

  lemma IndexedLines()
    ensures QpackBlocks.Indexed(QpackBlocks.CODE_GET) == [0xD1] && QpackBlocks.Indexed(QpackBlocks.CODE_POST) == [0xD4]
    ensures QpackBlocks.Indexed(QpackBlocks.CODE_200) == [0xD9] && QpackBlocks.Indexed(QpackBlocks.CODE_404) == [0xDB]
    ensures QpackBlocks.Indexed(QpackBlocks.CODE_SCHEME_HTTPS) == [0xD7]
  {
  }

  lemma LiteralLines()
    ensures QpackBlocks.Literal(QpackBlocks.CODE_PATH, [0x2F]) == [0x51, 0x01, 0x2F]
    ensures QpackBlocks.Literal(QpackBlocks.CODE_AUTHORITY, [0x61]) == [0x50, 0x01, 0x61]
    ensures QpackBlocks.Literal(QpackBlocks.CODE_USER_AGENT, [0x62]) == [0x5F, 0x50, 0x01, 0x62]
    ensures QpackBlocks.Literal(QpackBlocks.CODE_SERVER, [0x63]) == [0x5F, 0x4D, 0x01, 0x63]
  {
    Lines();
    hide PrefixInt.IntBytes;
  }

  lemma MethodLines()
    ensures QpackBlocks.Literal(QpackBlocks.CODE_404, Qpack.Ascii("405")) == [0x5F, 0x0C, 0x03, 0x34, 0x30, 0x35]
    ensures QpackBlocks.Literal(QpackBlocks.CODE_ALLOW_GET, Qpack.Ascii("GET, POST"))
         == [0x5F, 0x3D, 0x09, 0x47, 0x45, 0x54, 0x2C, 0x20, 0x50, 0x4F, 0x53, 0x54]
  {
    Lines();
    assert Qpack.Ascii("405") == [0x34, 0x30, 0x35];
    assert Qpack.Ascii("GET, POST") == [0x47, 0x45, 0x54, 0x2C, 0x20, 0x50, 0x4F, 0x53, 0x54];
    hide PrefixInt.IntBytes, Qpack.Ascii;
  }

  lemma Lines()
    ensures forall code: nat :: code < 63 ==> PrefixInt.IntBytes(0xC0, 0x3F, code) == [0xC0 + code]
    ensures forall code: nat :: code < 15 ==> PrefixInt.IntBytes(0x50, 0x0F, code) == [0x50 + code]
    ensures forall code: nat :: 15 <= code < 143 ==> PrefixInt.IntBytes(0x50, 0x0F, code) == [0x5F, code - 15]
    ensures forall length: nat :: length < 127 ==> PrefixInt.IntBytes(0x00, 0x7F, length) == [length]
  {
  }

  /** "a" and "302" in the Huffman code: the last one is an example of RFC 7541. */
  lemma HuffmanStrings()
    ensures Huffman.Decode([0x1F], 256) == Huffman.Result(true, [0x61])
    ensures Huffman.Decode([0x64, 0x02], 256) == Huffman.Result(true, [0x33, 0x30, 0x32])
  {
    hide Huffman.Decode, Huffman.ByteBits, Huffman.Encoded;
    HuffmanBits();
    Huffman.HuffmanRoundTrip([0x61], 3, [0x1F], 256);
    Huffman.HuffmanRoundTrip([0x33, 0x30, 0x32], 0, [0x64, 0x02], 256);
  }

  lemma HuffmanBits()
    ensures Huffman.ByteBits([0x1F]) == Huffman.Encoded([0x61]) + Huffman.Ones(3)
    ensures Huffman.ByteBits([0x64, 0x02]) == Huffman.Encoded([0x33, 0x30, 0x32]) + Huffman.Ones(0)
  {
    OneCode();
    ThreeCodes();
  }

  lemma OneCode()
    ensures Huffman.ByteBits([0x1F]) == Huffman.Encoded([0x61]) + Huffman.Ones(3)
  {
  }

  lemma ThreeCodes()
    ensures Huffman.ByteBits([0x64, 0x02]) == Huffman.Encoded([0x33, 0x30, 0x32]) + Huffman.Ones(0)
  {
  }

  /** The size of the response in eight bytes, and the filler behind it */
  lemma PerfPosts()
    ensures QuicPerf.Header(0x0102_0304_0506_0708) == [1, 2, 3, 4, 5, 6, 7, 8]
    ensures forall size, i: nat :: i >= 8 ==> QuicPerf.PostByte(size, i) == 0x30
  {
    Bytes4(0x0102_0304);
    hide QuicPerf.Header;
  }
}
