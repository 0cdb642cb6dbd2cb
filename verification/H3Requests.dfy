/** Requests and responses from the bytes of a stream to their parts: the filter, the header blocks and the Huffman code
    of picohttp/h3zero.c together. */
module H3Requests {
  import opened Wrappers
  import opened Varint
  import opened PrefixInt
  import opened Qpack
  import opened QpackBlocks
  import opened H3Stream
  import Huffman

  /** A POST request that picohttp/h3zero.c creates, and its content in any number of DATA frames, cut in any way: the
      server finds the path, the content type and the content. */
  lemma PostArrives(path: seq<byte>, host: Option<seq<byte>>, userAgent: Option<seq<byte>>, contentType: nat,
                    pieces: seq<seq<byte>>, chunks: seq<seq<byte>>)
    requires |path| < TWO_62 && Fits(host) && Fits(userAgent) && ContentTypeRow(contentType).Some?
    requires forall i :: 0 <= i < |pieces| ==> 0 < |pieces[i]| < TWO_62
    requires var block := Request(CODE_POST, path, host, userAgent) + Indexed(ContentTypeRow(contentType).value);
             |block| <= MAX_HEADERS && Concat(chunks) == Frame(HEADERS, block) + DataFrames(pieces)
    ensures RunChunks(START, chunks)
         == State(Header([]), true, pieces != [], false, Parts(METHOD_POST, Some(path), 0, contentType), NO_PARTS,
                  Concat(pieces))
  {
    hide Request, ParseBlock, ContentTypeRow, Frame, Run;
    PostRoundTrip(path, host, userAgent, contentType);
    var block := Request(CODE_POST, path, host, userAgent) + Indexed(ContentTypeRow(contentType).value);
    RequestMeaning(block, Parts(METHOD_POST, Some(path), 0, contentType), pieces);
    RunChunksIsRun(START, chunks);
  }

  /** The same for a response. */
  lemma ResponseArrives(server: Option<seq<byte>>, contentType: nat, pieces: seq<seq<byte>>, chunks: seq<seq<byte>>)
    requires Fits(server) && ContentTypeRow(contentType).Some?
    requires forall i :: 0 <= i < |pieces| ==> 0 < |pieces[i]| < TWO_62
    requires var block := Response(CODE_200, server) + Indexed(ContentTypeRow(contentType).value);
             |block| <= MAX_HEADERS && Concat(chunks) == Frame(HEADERS, block) + DataFrames(pieces)
    ensures RunChunks(START, chunks)
         == State(Header([]), true, pieces != [], false, Parts(METHOD_NONE, None, 200, contentType), NO_PARTS,
                  Concat(pieces))
  {
    hide Response, ParseBlock, ContentTypeRow, Frame, Run;
    ResponseRoundTrip(server, contentType);
    var block := Response(CODE_200, server) + Indexed(ContentTypeRow(contentType).value);
    RequestMeaning(block, Parts(METHOD_NONE, None, 200, contentType), pieces);
    RunChunksIsRun(START, chunks);
  }

  /** A path as other implementations send it: a name reference and a value in the code of Appendix B of RFC 7541. */
  function HuffmanPath(w: seq<byte>): seq<byte> {
    IntBytes(0x50, 0x0F, CODE_PATH) + IntBytes(0x80, 0x7F, |w|) + w
  }

  /** Such a path is found as it was before the coding, if it is no longer than the local array of the parser; else its
      beginning is taken for it. */
  lemma HuffmanPathFound(path: seq<byte>, padding: nat, w: seq<byte>, rest: seq<byte>, parts: Parts)
    requires padding <= 7 && Huffman.ByteBits(w) == Huffman.Encoded(path) + Huffman.Ones(padding)
    requires |w| < TWO_62 && parts.path.None?
    ensures ParseFields(HuffmanPath(w) + rest, parts)
         == ParseFields(rest, parts.(path := Some(if |path| <= MAX_DECODED then path else path[..MAX_DECODED])))
  {
    hide IntBytes, ParseFields, Huffman.Decode, Huffman.Encoded, Huffman.ByteBits, ParseValue;
    Huffman.HuffmanRoundTrip(path, padding, w, MAX_DECODED);
    var parts' := parts.(path := Some(if |path| <= MAX_DECODED then path else path[..MAX_DECODED]));
    var v := IntBytes(0x80, 0x7F, |w|) + w;
    HuffmanValue(w, rest, parts, parts');
    ReferenceField(CODE_PATH, v, rest, parts, parts');
    assert HuffmanPath(w) == IntBytes(0x50, 0x0F, CODE_PATH) + v;
  }

  lemma HuffmanValue(w: seq<byte>, rest: seq<byte>, parts: Parts, parts': Parts)
    requires |w| < TWO_62 && Huffman.Decode(w, MAX_DECODED).accepted
    requires SetValue(Path, Huffman.Decode(w, MAX_DECODED).decoded, parts) == Some(parts')
    ensures var v := IntBytes(0x80, 0x7F, |w|) + w; ParseValue(v + rest, Path, parts) == Some((|v|, parts'))
  {
    hide IntBytes, DecodeInt, Huffman.Decode, SetValue;
    var length := IntBytes(0x80, 0x7F, |w|);
    var s := length + w + rest;
    assert s == length + (w + rest);
    IntRoundTrip(0x80, 0x7F, |w|, w + rest);
    PrefixByte(0x80, 0x7F, |w|);
    assert s[0] == length[0];
    assert s[|length|..|length| + |w|] == w;
  }
}
