/** The header blocks that picohttp/h3zero.c creates, and their parsing. */
module QpackBlocks {
  import opened Wrappers
  import opened Varint
  import opened PrefixInt
  import opened Qpack

  // ----- The bytes of a block

  const CODE_AUTHORITY: nat := 0
  const CODE_PATH: nat := 1
  const CODE_GET: nat := 17
  const CODE_POST: nat := 20
  const CODE_SCHEME_HTTPS: nat := 23
  const CODE_200: nat := 25
  const CODE_404: nat := 27
  const CODE_ALLOW_GET: nat := 76
  const CODE_SERVER: nat := 92
  const CODE_USER_AGENT: nat := 95

  function Indexed(code: nat): seq<byte> {
    IntBytes(0xC0, 0x3F, code)
  }

  function Literal(code: nat, val: seq<byte>): seq<byte> {
    IntBytes(0x50, 0x0F, code) + IntBytes(0x00, 0x7F, |val|) + val
  }

  function OptionalLiteral(code: nat, val: Option<seq<byte>>): seq<byte> {
    match val
    case None => []
    case Some(s) => Literal(code, s)
  }

  function Request(code: nat, path: seq<byte>, host: Option<seq<byte>>, userAgent: Option<seq<byte>>): seq<byte> {
    [0, 0] + Indexed(code) + Indexed(CODE_SCHEME_HTTPS) + Literal(CODE_PATH, path)
    + OptionalLiteral(CODE_AUTHORITY, host) + OptionalLiteral(CODE_USER_AGENT, userAgent)
  }

  function Response(code: nat, server: Option<seq<byte>>): seq<byte> {
    [0, 0] + Indexed(code) + OptionalLiteral(CODE_SERVER, server)
  }

  /** The block of `h3zero_create_bad_method_header_frame_ex`: the status 405 is a literal. */
  function BadMethod(server: Option<seq<byte>>): seq<byte> {
    [0, 0] + Literal(CODE_404, Ascii("405")) + OptionalLiteral(CODE_SERVER, server)
    + Literal(CODE_ALLOW_GET, Ascii("GET, POST"))
  }

  /** The first row of the static table with a content type. */
  function ContentTypeRow(contentType: nat): Option<nat> {
    if contentType == CONTENT_TYPE_NONE then Some(44)
    else if contentType == 2 then Some(52)
    else if contentType == 3 then Some(53)
    else if 4 <= contentType <= 6 then Some(44 + contentType)
    else None
  }

  predicate Fits(val: Option<seq<byte>>) {
    val.Some? ==> |val.value| < TWO_62
  }

  // ----- Field lines

  lemma ParsedField(f: seq<byte>, rest: seq<byte>, parts: Parts, parts': Parts)
    requires f != [] && ParseField(f + rest, parts) == Some((|f|, parts'))
    ensures ParseFields(f + rest, parts) == ParseFields(rest, parts')
  {
  }

  lemma IndexedField(code: nat, rest: seq<byte>, parts: Parts, parts': Parts)
    requires code < NB_STATIC && SetStatic(code, parts) == Some(parts')
    ensures ParseFields(Indexed(code) + rest, parts) == ParseFields(rest, parts')
  {
    hide IntBytes, DecodeInt, SetStatic;
    IntRoundTrip(0xC0, 0x3F, code, rest);
    PrefixByte(0xC0, 0x3F, code);
    ParsedField(Indexed(code), rest, parts, parts');
  }

  lemma PrefixByte(prefix: byte, mask: nat, val: nat)
    requires IsMask(mask) && IsPrefix(prefix, mask)
    ensures prefix as int <= IntBytes(prefix, mask, val)[0] as int <= prefix as int + mask
  {
  }

  lemma ParsedValue(val: seq<byte>, rest: seq<byte>, header: Header, parts: Parts, parts': Parts)
    requires |val| < TWO_62 && SetValue(header, val, parts) == Some(parts')
    ensures var v := IntBytes(0x00, 0x7F, |val|) + val;
            ParseValue(v + rest, header, parts) == Some((|v|, parts'))
  {
    hide IntBytes, DecodeInt, SetValue;
    var length := IntBytes(0x00, 0x7F, |val|);
    var s := length + val + rest;
    assert s == length + (val + rest);
    IntRoundTrip(0x00, 0x7F, |val|, val + rest);
    PrefixByte(0x00, 0x7F, |val|);
    assert s[0] == length[0];
    assert s[|length|..|length| + |val|] == val;
  }

  /** A name reference, and any value that the parser accepts */
  lemma ReferenceField(code: nat, v: seq<byte>, rest: seq<byte>, parts: Parts, parts': Parts)
    requires code < NB_STATIC && ParseValue(v + rest, StaticRow(code).0, parts) == Some((|v|, parts'))
    ensures ParseFields(IntBytes(0x50, 0x0F, code) + v + rest, parts) == ParseFields(rest, parts')
  {
    hide IntBytes, DecodeInt, ParseValue;
    var name := IntBytes(0x50, 0x0F, code);
    var s := name + v + rest;
    assert s == name + (v + rest);
    IntRoundTrip(0x50, 0x0F, code, v + rest);
    PrefixByte(0x50, 0x0F, code);
    assert s[0] == name[0];
    assert s[|name|..] == v + rest;
    ParsedField(name + v, rest, parts, parts');
  }

  lemma LiteralField(code: nat, val: seq<byte>, rest: seq<byte>, parts: Parts, parts': Parts)
    requires code < NB_STATIC && |val| < TWO_62 && SetValue(StaticRow(code).0, val, parts) == Some(parts')
    ensures ParseFields(Literal(code, val) + rest, parts) == ParseFields(rest, parts')
  {
    hide IntBytes, SetValue, ParseValue, ParseFields;
    var v := IntBytes(0x00, 0x7F, |val|) + val;
    ParsedValue(val, rest, StaticRow(code).0, parts, parts');
    ReferenceField(code, v, rest, parts, parts');
    assert Literal(code, val) == IntBytes(0x50, 0x0F, code) + v;
  }

  lemma OptionalField(code: nat, val: Option<seq<byte>>, rest: seq<byte>, parts: Parts)
    requires code < NB_STATIC && StaticRow(code).0 == Other && Fits(val)
    ensures ParseFields(OptionalLiteral(code, val) + rest, parts) == ParseFields(rest, parts)
  {
    hide Literal, ParseFields;
    if val.Some? {
      LiteralField(code, val.value, rest, parts, parts);
    } else {
      assert OptionalLiteral(code, val) + rest == rest;
    }
  }

  lemma ParsedPrefix(rest: seq<byte>)
    ensures ParseBlock([0, 0] + rest) == ParseFields(rest, NO_PARTS)
  {
    hide ParseFields, DecodeInt;
    var s := [0, 0] + rest;
    assert s[1..] == [0] + rest && s[2..] == rest;
    ZeroByte(rest);
  }

  lemma ZeroByte(rest: seq<byte>)
    ensures DecodeInt([0] + rest, 0x7F) == Some((0, 1))
  {
  }

  // ----- Blocks

  lemma RequestFields(code: nat, verb: nat, path: seq<byte>, host: Option<seq<byte>>, userAgent: Option<seq<byte>>,
                      rest: seq<byte>)
    requires code < NB_STATIC && StaticRow(code) == (Method, verb)
    requires |path| < TWO_62 && Fits(host) && Fits(userAgent)
    ensures ParseBlock(Request(code, path, host, userAgent) + rest)
         == ParseFields(rest, Parts(verb, Some(path), 0, CONTENT_TYPE_NONE))
  {
    hide Indexed, Literal, OptionalLiteral, ParseFields, ParseBlock;
    var p1 := NO_PARTS.(verb := verb);
    var p2 := p1.(path := Some(path));
    var s5 := OptionalLiteral(CODE_USER_AGENT, userAgent) + rest;
    var s4 := OptionalLiteral(CODE_AUTHORITY, host) + s5;
    var s3 := Literal(CODE_PATH, path) + s4;
    var s2 := Indexed(CODE_SCHEME_HTTPS) + s3;
    var s1 := Indexed(code) + s2;
    assert Request(code, path, host, userAgent) + rest == [0, 0] + s1;
    ParsedPrefix(s1);
    IndexedField(code, s2, NO_PARTS, p1);
    IndexedField(CODE_SCHEME_HTTPS, s3, p1, p1);
    LiteralField(CODE_PATH, path, s4, p1, p2);
    OptionalField(CODE_AUTHORITY, host, s5, p2);
    OptionalField(CODE_USER_AGENT, userAgent, rest, p2);
  }

  /** A GET request is parsed to exactly its path, whatever the host and the user agent are. */
  lemma GetRoundTrip(path: seq<byte>, host: Option<seq<byte>>, userAgent: Option<seq<byte>>)
    requires |path| < TWO_62 && Fits(host) && Fits(userAgent)
    ensures ParseBlock(Request(CODE_GET, path, host, userAgent))
         == Some(Parts(METHOD_GET, Some(path), 0, CONTENT_TYPE_NONE))
  {
    hide Request, ParseBlock;
    RequestFields(CODE_GET, METHOD_GET, path, host, userAgent, []);
    assert Request(CODE_GET, path, host, userAgent) + [] == Request(CODE_GET, path, host, userAgent);
  }

  lemma ContentTypeField(contentType: nat, parts: Parts)
    requires ContentTypeRow(contentType).Some? && parts.contentType == CONTENT_TYPE_NONE
    ensures ParseFields(Indexed(ContentTypeRow(contentType).value), parts) == Some(parts.(contentType := contentType))
  {
    hide Indexed, ParseFields;
    var row := ContentTypeRow(contentType).value;
    assert StaticRow(row) == (ContentType, contentType);
    IndexedField(row, [], parts, parts.(contentType := contentType));
    assert Indexed(row) + [] == Indexed(row);
    assert ParseFields([], parts.(contentType := contentType)) == Some(parts.(contentType := contentType)) by {
      NoFields(parts.(contentType := contentType));
    }
  }

  lemma NoFields(parts: Parts)
    ensures ParseFields([], parts) == Some(parts)
  {
  }

  /** A POST request is parsed to its path and content type. */
  lemma PostRoundTrip(path: seq<byte>, host: Option<seq<byte>>, userAgent: Option<seq<byte>>, contentType: nat)
    requires |path| < TWO_62 && Fits(host) && Fits(userAgent) && ContentTypeRow(contentType).Some?
    ensures ParseBlock(Request(CODE_POST, path, host, userAgent) + Indexed(ContentTypeRow(contentType).value))
         == Some(Parts(METHOD_POST, Some(path), 0, contentType))
  {
    hide Request, ParseBlock, ContentTypeRow;
    RequestFields(CODE_POST, METHOD_POST, path, host, userAgent, Indexed(ContentTypeRow(contentType).value));
    ContentTypeField(contentType, Parts(METHOD_POST, Some(path), 0, CONTENT_TYPE_NONE));
  }

  lemma ResponseFields(code: nat, status: int, server: Option<seq<byte>>, rest: seq<byte>)
    requires code < NB_STATIC && StaticRow(code) == (Status, status) && Fits(server)
    ensures ParseBlock(Response(code, server) + rest)
         == ParseFields(rest, Parts(METHOD_NONE, None, status, CONTENT_TYPE_NONE))
  {
    hide Indexed, OptionalLiteral, ParseFields, ParseBlock;
    var p := NO_PARTS.(status := status);
    var s2 := OptionalLiteral(CODE_SERVER, server) + rest;
    var s1 := Indexed(code) + s2;
    assert Response(code, server) + rest == [0, 0] + s1;
    ParsedPrefix(s1);
    IndexedField(code, s2, NO_PARTS, p);
    OptionalField(CODE_SERVER, server, rest, p);
  }

  /** The responses are parsed to their status and content type. */
  lemma ResponseRoundTrip(server: Option<seq<byte>>, contentType: nat)
    requires Fits(server) && ContentTypeRow(contentType).Some?
    ensures ParseBlock(Response(CODE_200, server) + Indexed(ContentTypeRow(contentType).value))
         == Some(Parts(METHOD_NONE, None, 200, contentType))
    ensures ParseBlock(Response(CODE_404, server)) == Some(Parts(METHOD_NONE, None, 404, CONTENT_TYPE_NONE))
  {
    hide Response, ParseBlock, ContentTypeRow;
    ResponseFields(CODE_200, 200, server, Indexed(ContentTypeRow(contentType).value));
    ContentTypeField(contentType, Parts(METHOD_NONE, None, 200, CONTENT_TYPE_NONE));
    ResponseFields(CODE_404, 404, server, []);
    assert Response(CODE_404, server) + [] == Response(CODE_404, server);
    NoFields(Parts(METHOD_NONE, None, 404, CONTENT_TYPE_NONE));
  }

  lemma BadMethodRoundTrip(server: Option<seq<byte>>)
    requires Fits(server)
    ensures ParseBlock(BadMethod(server)) == Some(Parts(METHOD_NONE, None, 405, CONTENT_TYPE_NONE))
  {
    hide Literal, OptionalLiteral, ParseFields, ParseBlock;
    var p := NO_PARTS.(status := 405);
    var s3 := Literal(CODE_ALLOW_GET, Ascii("GET, POST"));
    var s2 := OptionalLiteral(CODE_SERVER, server) + s3;
    var s1 := Literal(CODE_404, Ascii("405")) + s2;
    assert BadMethod(server) == [0, 0] + s1;
    ParsedPrefix(s1);
    Status405();
    LiteralField(CODE_404, Ascii("405"), s2, NO_PARTS, p);
    OptionalField(CODE_SERVER, server, s3, p);
    LiteralField(CODE_ALLOW_GET, Ascii("GET, POST"), [], p, p);
    assert s3 + [] == s3;
    NoFields(p);
  }

  lemma Status405()
    ensures StatusOf(Ascii("405")) == 405
  {
    var s := Ascii("405");
    assert s == [0x34, 0x30, 0x35];
    assert s[..2] == [0x34, 0x30] && s[..2][..1] == [0x34] && s[..1][..0] == [];
    assert StatusOf([0x34]) == 4 && StatusOf([0x34, 0x30]) == 40;
  }

  // ----- Writing

  /** Where the writing of `written` from `lo` on has led: to the next position, or to NULL once it does not fit. */
  predicate Written(b: seq<byte>, lo: nat, max: nat, next: Option<nat>, written: seq<byte>)
    requires lo <= max <= |b|
  {
    && (next.Some? <==> lo + |written| <= max)
    && (next.Some? ==> next.value == lo + |written| && b[lo..lo + |written|] == written)
  }

  lemma SplicedOn(b: seq<byte>, lo: nat, max: nat, written: seq<byte>, more: seq<byte>)
    requires lo + |written| + |more| <= max <= |b| && Written(b, lo, max, Some(lo + |written|), written)
    ensures Written(Splice(b, lo + |written|, more), lo, max, Some(lo + |written| + |more|), written + more)
    ensures SameOutside(b, Splice(b, lo + |written|, more), lo, max)
  {
  }

  lemma OutsideFrom(b: seq<byte>, b': seq<byte>, lo: nat, pos: nat, max: nat)
    requires lo <= pos && SameOutside(b, b', pos, max)
    ensures SameOutside(b, b', lo, max)
  {
  }

  /** `h3zero_qpack_code_encode`: writes the prefix, then or-s the integer into it. */
  method CodeEncode(buf: array<byte>, lo: nat, pos: Option<nat>, max: nat, prefix: byte, mask: nat, code: nat,
                    ghost written: seq<byte>)
    returns (next: Option<nat>)
    requires lo <= max <= buf.Length && Written(buf[..], lo, max, pos, written)
    requires IsMask(mask) && IsPrefix(prefix, mask)
    modifies buf
    ensures SameOutside(old(buf[..]), buf[..], lo, max)
    ensures Written(buf[..], lo, max, next, written + IntBytes(prefix, mask, code))
  {
    hide Splice, SameOutside, IntBytes;
    ghost var b, bytes := buf[..], IntBytes(prefix, mask, code);
    SameOutsideItself(b, lo, max);
    if pos.None? || pos.value + 1 > max {
      return None;
    }
    var p := pos.value;
    SpliceOne(b, p, prefix);
    SpliceSameOutside(b, p, [prefix], lo, max);
    buf[p] := prefix;
    ghost var b1 := buf[..];
    assert b1[p] == prefix;
    next := IntEncode(buf, p, max, mask, code);
    if next.Some? {
      SpliceOver(b, p, prefix, bytes);
      SplicedOn(b, lo, max, written, bytes);
    } else {
      OutsideFrom(b1, buf[..], lo, p, max);
      SameOutsideJoin(b, b1, buf[..], lo, max);
    }
  }

  lemma SpliceOver(b: seq<byte>, pos: nat, x: byte, bytes: seq<byte>)
    requires bytes != [] && pos + |bytes| <= |b|
    ensures Splice(Splice(b, pos, [x]), pos, bytes) == Splice(b, pos, bytes)
  {
  }

  /** `h3zero_qpack_literal_plus_ref_encode` */
  method LiteralEncode(buf: array<byte>, lo: nat, pos: Option<nat>, max: nat, code: nat, val: seq<byte>,
                       ghost written: seq<byte>)
    returns (next: Option<nat>)
    requires lo <= max <= buf.Length && Written(buf[..], lo, max, pos, written)
    modifies buf
    ensures SameOutside(old(buf[..]), buf[..], lo, max)
    ensures Written(buf[..], lo, max, next, written + Literal(code, val))
  {
    hide Splice, SameOutside, IntBytes;
    ghost var b := buf[..];
    ghost var name, length := IntBytes(0x50, 0x0F, code), IntBytes(0x00, 0x7F, |val|);
    next := CodeEncode(buf, lo, pos, max, 0x50, 0x0F, code, written);
    ghost var b1 := buf[..];
    next := CodeEncode(buf, lo, next, max, 0x00, 0x7F, |val|, written + name);
    SameOutsideJoin(b, b1, buf[..], lo, max);
    ghost var b2 := buf[..];
    assert written + name + length + val == written + Literal(code, val);
    if next.Some? && |val| > 0 {
      var p := next.value;
      if p + |val| > max {
        next := None;
      } else {
        forall i | 0 <= i < |val| {
          buf[p + i] := val[i];
        }
        SpliceFromSlices(b2, buf[..], p, val);
        SplicedOn(b2, lo, max, written + name + length, val);
        SameOutsideJoin(b, b2, buf[..], lo, max);
        next := Some(p + |val|);
      }
    } else {
      assert |val| == 0 ==> written + name + length + val == written + name + length;
    }
  }

  method OptionalEncode(buf: array<byte>, lo: nat, pos: Option<nat>, max: nat, code: nat, val: Option<seq<byte>>,
                        ghost written: seq<byte>)
    returns (next: Option<nat>)
    requires lo <= max <= buf.Length && Written(buf[..], lo, max, pos, written)
    modifies buf
    ensures SameOutside(old(buf[..]), buf[..], lo, max)
    ensures Written(buf[..], lo, max, next, written + OptionalLiteral(code, val))
  {
    hide SameOutside, Literal;
    next := pos;
    if val.Some? {
      next := LiteralEncode(buf, lo, pos, max, code, val.value, written);
    } else {
      SameOutsideItself(buf[..], lo, max);
      assert written + [] == written;
    }
  }

  /** The search of `h3zero_encode_content_type` */
  method FindContentType(contentType: nat) returns (code: Option<nat>)
    ensures code == ContentTypeRow(contentType)
  {
    var i := 0;
    while i < NB_STATIC
      invariant i <= NB_STATIC
      invariant forall j: nat | j < i :: StaticRow(j) != (ContentType, contentType)
    {
      if StaticRow(i) == (ContentType, contentType) {
        FirstRow(i, contentType);
        return Some(i);
      }
      i := i + 1;
    }
    NoRow(contentType);
    return None;
  }

  lemma FirstRow(i: nat, contentType: nat)
    requires i < NB_STATIC && StaticRow(i) == (ContentType, contentType)
    requires forall j: nat | j < i :: StaticRow(j) != (ContentType, contentType)
    ensures ContentTypeRow(contentType) == Some(i)
  {
    assert i > 44 ==> StaticRow(44) == (ContentType, 0);
    assert i > 53 ==> StaticRow(53) == (ContentType, 3);
  }

  lemma NoRow(contentType: nat)
    requires forall j: nat | j < NB_STATIC :: StaticRow(j) != (ContentType, contentType)
    ensures ContentTypeRow(contentType).None?
  {
    assert StaticRow(44) == (ContentType, 0) && StaticRow(52) == (ContentType, 2) && StaticRow(53) == (ContentType, 3);
    assert StaticRow(48) == (ContentType, 4) && StaticRow(49) == (ContentType, 5) && StaticRow(50) == (ContentType, 6);
  }

  /** `h3zero_create_request_header_frame_ex`, and the common part of `h3zero_create_post_header_frame_ex` */
  method CreateRequest(buf: array<byte>, pos: nat, max: nat, code: nat, path: seq<byte>, host: Option<seq<byte>>,
                       userAgent: Option<seq<byte>>)
    returns (next: Option<nat>)
    requires pos <= max <= buf.Length
    modifies buf
    ensures SameOutside(old(buf[..]), buf[..], pos, max)
    ensures Written(buf[..], pos, max, next, Request(code, path, host, userAgent))
  {
    hide SameOutside, IntBytes, Literal, OptionalLiteral;
    ghost var b0 := buf[..];
    next := WriteZeros(buf, pos, max);
    ghost var b1, w := buf[..], [0, 0];
    next := CodeEncode(buf, pos, next, max, 0xC0, 0x3F, code, w);
    SameOutsideJoin(b0, b1, buf[..], pos, max);
    b1, w := buf[..], w + Indexed(code);
    next := CodeEncode(buf, pos, next, max, 0xC0, 0x3F, CODE_SCHEME_HTTPS, w);
    SameOutsideJoin(b0, b1, buf[..], pos, max);
    b1, w := buf[..], w + Indexed(CODE_SCHEME_HTTPS);
    next := LiteralEncode(buf, pos, next, max, CODE_PATH, path, w);
    SameOutsideJoin(b0, b1, buf[..], pos, max);
    b1, w := buf[..], w + Literal(CODE_PATH, path);
    next := OptionalEncode(buf, pos, next, max, CODE_AUTHORITY, host, w);
    SameOutsideJoin(b0, b1, buf[..], pos, max);
    b1, w := buf[..], w + OptionalLiteral(CODE_AUTHORITY, host);
    next := OptionalEncode(buf, pos, next, max, CODE_USER_AGENT, userAgent, w);
    SameOutsideJoin(b0, b1, buf[..], pos, max);
  }

  /** The base and its delta. */
  method WriteZeros(buf: array<byte>, pos: nat, max: nat) returns (next: Option<nat>)
    requires pos <= max <= buf.Length
    modifies buf
    ensures SameOutside(old(buf[..]), buf[..], pos, max)
    ensures Written(buf[..], pos, max, next, [0, 0])
  {
    if pos + 2 > max {
      return None;
    }
    buf[pos], buf[pos + 1] := 0, 0;
    next := Some(pos + 2);
  }

  /** `h3zero_encode_content_type` */
  method EncodeContentType(buf: array<byte>, lo: nat, pos: Option<nat>, max: nat, contentType: nat,
                           ghost written: seq<byte>)
    returns (next: Option<nat>)
    requires lo <= max <= buf.Length && Written(buf[..], lo, max, pos, written)
    modifies buf
    ensures SameOutside(old(buf[..]), buf[..], lo, max)
    ensures var row := ContentTypeRow(contentType);
            if row.Some? then Written(buf[..], lo, max, next, written + Indexed(row.value)) else next.None?
  {
    hide SameOutside, IntBytes, ContentTypeRow;
    next := None;
    var code := FindContentType(contentType);
    if code.Some? {
      next := CodeEncode(buf, lo, pos, max, 0xC0, 0x3F, code.value, written);
    } else {
      SameOutsideItself(buf[..], lo, max);
    }
  }

  /** `h3zero_create_post_header_frame_ex` */
  method CreatePost(buf: array<byte>, pos: nat, max: nat, path: seq<byte>, host: Option<seq<byte>>,
                    userAgent: Option<seq<byte>>, contentType: nat)
    returns (next: Option<nat>)
    requires pos <= max <= buf.Length
    modifies buf
    ensures SameOutside(old(buf[..]), buf[..], pos, max)
    ensures var row := ContentTypeRow(contentType);
            if row.None? then next.None?
            else Written(buf[..], pos, max, next, Request(CODE_POST, path, host, userAgent) + Indexed(row.value))
  {
    hide SameOutside, Request, IntBytes, ContentTypeRow;
    ghost var b0 := buf[..];
    next := CreateRequest(buf, pos, max, CODE_POST, path, host, userAgent);
    ghost var b1 := buf[..];
    next := EncodeContentType(buf, pos, next, max, contentType, Request(CODE_POST, path, host, userAgent));
    SameOutsideJoin(b0, b1, buf[..], pos, max);
  }

  /** `h3zero_create_not_found_header_frame_ex`, and the common part of `h3zero_create_response_header_frame_ex` */
  method CreateStatus(buf: array<byte>, pos: nat, max: nat, code: nat, server: Option<seq<byte>>)
    returns (next: Option<nat>)
    requires pos <= max <= buf.Length
    modifies buf
    ensures SameOutside(old(buf[..]), buf[..], pos, max)
    ensures Written(buf[..], pos, max, next, Response(code, server))
  {
    hide SameOutside, IntBytes, OptionalLiteral;
    ghost var b0 := buf[..];
    next := WriteZeros(buf, pos, max);
    ghost var b1, w := buf[..], [0, 0];
    next := CodeEncode(buf, pos, next, max, 0xC0, 0x3F, code, w);
    SameOutsideJoin(b0, b1, buf[..], pos, max);
    b1, w := buf[..], w + Indexed(code);
    next := OptionalEncode(buf, pos, next, max, CODE_SERVER, server, w);
    SameOutsideJoin(b0, b1, buf[..], pos, max);
  }

  /** `h3zero_create_response_header_frame_ex` */
  method CreateResponse(buf: array<byte>, pos: nat, max: nat, server: Option<seq<byte>>, contentType: nat)
    returns (next: Option<nat>)
    requires pos <= max <= buf.Length
    modifies buf
    ensures SameOutside(old(buf[..]), buf[..], pos, max)
    ensures var row := ContentTypeRow(contentType);
            if row.None? then next.None?
            else Written(buf[..], pos, max, next, Response(CODE_200, server) + Indexed(row.value))
  {
    hide SameOutside, Response, IntBytes, ContentTypeRow;
    ghost var b0 := buf[..];
    next := CreateStatus(buf, pos, max, CODE_200, server);
    ghost var b1 := buf[..];
    next := EncodeContentType(buf, pos, next, max, contentType, Response(CODE_200, server));
    SameOutsideJoin(b0, b1, buf[..], pos, max);
  }

  /** `h3zero_create_bad_method_header_frame_ex`: the four bytes of the literal status are stored without looking at
      `max`; `reached` is the position behind them. They pass `max` exactly if between four and seven bytes are free;
      then the next writer finds that the position is beyond `max`. */
  method CreateBadMethod(buf: array<byte>, pos: nat, max: nat, server: Option<seq<byte>>)
    returns (next: Option<nat>, ghost reached: nat)
    requires pos <= max && max + 4 <= buf.Length
    modifies buf
    ensures Written(buf[..], pos, max, next, BadMethod(server))
    ensures reached > max <==> 4 <= max - pos < 8
    ensures reached > max ==> reached == pos + 8
    ensures SameOutside(old(buf[..]), buf[..], pos, if reached > max then reached else max)
  {
    hide SameOutside, IntBytes, Literal, OptionalLiteral, Splice, BadMethod, Written;
    ghost var b0 := buf[..];
    reached := pos;
    next := WriteZeros(buf, pos, max);
    ghost var b1, w := buf[..], [0, 0];
    next := CodeEncode(buf, pos, next, max, 0x50, 0x0F, CODE_404, w);
    SameOutsideJoin(b0, b1, buf[..], pos, max);
    LiteralStatus();
    w := w + IntBytes(0x50, 0x0F, CODE_404);
    WrittenEnds(buf[..], pos, max, next, w);
    if next.Some? {
      reached := next.value + 4;
      next := StoreStatus(buf, pos, next.value, max, b0, w);
    }
    w := w + [3, 0x34, 0x30, 0x35];
    ghost var s, a := OptionalLiteral(CODE_SERVER, server), Literal(CODE_ALLOW_GET, Ascii("GET, POST"));
    BadMethodParts(server);
    if next.None? {
      NoMoreWritten(buf[..], pos, max, w, s + a);
      return;
    }
    ghost var b2 := buf[..];
    next := OptionalEncode(buf, pos, next, max, CODE_SERVER, server, w);
    SameOutsideJoin(b0, b2, buf[..], pos, max);
    b2 := buf[..];
    next := LiteralEncode(buf, pos, next, max, CODE_ALLOW_GET, Ascii("GET, POST"), w + s);
    SameOutsideJoin(b0, b2, buf[..], pos, max);
  }

  method StoreStatus(buf: array<byte>, lo: nat, p: nat, max: nat, ghost b0: seq<byte>, ghost written: seq<byte>)
    returns (next: Option<nat>)
    requires lo <= p <= max && max + 4 <= buf.Length && SameOutside(b0, buf[..], lo, max)
    requires Written(buf[..], lo, max, Some(p), written)
    modifies buf
    ensures Written(buf[..], lo, max, next, written + [3, 0x34, 0x30, 0x35])
    ensures SameOutside(b0, buf[..], lo, if p + 4 > max then p + 4 else max)
    ensures next.Some? ==> p + 4 <= max
    ensures p + 4 > max ==> next.None?
  {
    hide SameOutside, Splice, Written;
    ghost var b := buf[..];
    buf[p], buf[p + 1], buf[p + 2], buf[p + 3] := 3, 0x34, 0x30, 0x35;
    FourStores(b, buf[..], p, 3, 0x34, 0x30, 0x35);
    StoredOn(b0, b, lo, p, max, written, [3, 0x34, 0x30, 0x35]);
    next := if p + 4 > max then None else Some(p + 4);
  }

  lemma WrittenEnds(b: seq<byte>, lo: nat, max: nat, next: Option<nat>, written: seq<byte>)
    requires lo <= max <= |b| && Written(b, lo, max, next, written)
    ensures next.Some? <==> lo + |written| <= max
    ensures next.Some? ==> next.value == lo + |written|
  {
  }

  lemma NoMoreWritten(b: seq<byte>, lo: nat, max: nat, written: seq<byte>, more: seq<byte>)
    requires lo <= max <= |b| && Written(b, lo, max, None, written)
    ensures Written(b, lo, max, None, written + more)
  {
  }

  lemma BadMethodParts(server: Option<seq<byte>>)
    ensures var w := [0, 0] + IntBytes(0x50, 0x0F, CODE_404) + [3, 0x34, 0x30, 0x35];
            var s, a := OptionalLiteral(CODE_SERVER, server), Literal(CODE_ALLOW_GET, Ascii("GET, POST"));
            BadMethod(server) == w + s + a == w + (s + a)
  {
    hide IntBytes, Literal, OptionalLiteral;
    LiteralStatus();
  }

  lemma LiteralStatus()
    ensures |IntBytes(0x50, 0x0F, CODE_404)| == 2
    ensures Literal(CODE_404, Ascii("405")) == IntBytes(0x50, 0x0F, CODE_404) + [3, 0x34, 0x30, 0x35]
  {
    assert Ascii("405") == [0x34, 0x30, 0x35];
    assert IntBytes(0x00, 0x7F, 3) == [3];
  }

  lemma FourStores(b: seq<byte>, b': seq<byte>, p: nat, w: byte, x: byte, y: byte, z: byte)
    requires p + 4 <= |b| && b' == b[p := w][p + 1 := x][p + 2 := y][p + 3 := z]
    ensures b' == Splice(b, p, [w, x, y, z])
  {
  }

  /** The stores behind what was written, which may pass `max`. */
  lemma StoredOn(b0: seq<byte>, b: seq<byte>, lo: nat, p: nat, max: nat, written: seq<byte>, more: seq<byte>)
    requires lo <= p <= max <= |b| && p + |more| <= |b| && SameOutside(b0, b, lo, max)
    requires Written(b, lo, max, Some(p), written)
    ensures var b' := Splice(b, p, more);
            && SameOutside(b0, b', lo, if p + |more| > max then p + |more| else max)
            && Written(b', lo, max, if p + |more| > max then None else Some(p + |more|), written + more)
  {
  }
}
