/** The QPACK header blocks of picohttp/h3zero.c (section 4.5 of RFC 9204): the static table only, and no Huffman
    coding on output. */
module Qpack {
  import opened Wrappers
  import opened Varint
  import opened PrefixInt
  import Huffman

  // ----- Header parts

  const METHOD_NONE: nat := 0
  const METHOD_NOT_SUPPORTED: nat := 1
  const METHOD_GET: nat := 4
  const METHOD_POST: nat := 7
  const CONTENT_TYPE_NONE: nat := 0
  const CONTENT_TYPE_NOT_SUPPORTED: nat := 1

  /** The fields that the parser keeps; `verb` (the method) and `contentType` are NONE and `status` is 0 until they are
      found. */
  datatype Parts = Parts(verb: nat, path: Option<seq<byte>>, status: int, contentType: nat)

  const NO_PARTS := Parts(METHOD_NONE, None, 0, CONTENT_TYPE_NONE)

  datatype Header = Method | Path | Status | ContentType | Other

  const NB_STATIC: nat := 99

  /** The header of a row of the static table, and its value as a number where the parser uses it. */
  function StaticRow(i: nat): (Header, nat)
    requires i < NB_STATIC
  {
    if i == 1 then (Path, 0)
    else if 15 <= i <= 21 then (Method, i - 13)
    else if 24 <= i <= 28 then (Status, [103, 200, 304, 404, 503][i - 24])
    else if 44 <= i <= 54 then (ContentType, [0, 0, 0, 0, 4, 5, 6, 0, 2, 3, 3][i - 44])
    else if 63 <= i <= 71 then (Status, [100, 204, 206, 302, 400, 403, 421, 425, 500][i - 63])
    else (Other, 0)
  }

  function Ascii(s: string): seq<byte> {
    seq(|s|, i requires 0 <= i < |s| => s[i] as int % 256)
  }

  function MethodByName(name: seq<byte>): nat {
    if name == Ascii("CONNECT") then 2
    else if name == Ascii("DELETE") then 3
    else if name == Ascii("GET") then METHOD_GET
    else if name == Ascii("HEAD") then 5
    else if name == Ascii("OPTIONS") then 6
    else if name == Ascii("POST") then METHOD_POST
    else if name == Ascii("PUT") then 8
    else METHOD_NOT_SUPPORTED
  }

  function ContentTypeByName(name: seq<byte>): nat {
    if name == Ascii("application/dns-message") then 0
    else if name == Ascii("application/javascript") then 0
    else if name == Ascii("application/json") then 0
    else if name == Ascii("application/x-www-form-urlencoded") then 0
    else if name == Ascii("image/gif") then 4
    else if name == Ascii("image/jpeg") then 5
    else if name == Ascii("image/png") then 6
    else if name == Ascii("text/css") then 0
    else if name == Ascii("text/html; charset=utf-8") then 2
    else if name == Ascii("text/plain") then 3
    else if name == Ascii("text/plain;charset=utf-8") then 3
    else CONTENT_TYPE_NOT_SUPPORTED
  }

  function HeaderByName(name: seq<byte>): Header {
    if name == Ascii(":method") then Method
    else if name == Ascii(":path") then Path
    else if name == Ascii(":status") then Status
    else if name == Ascii("content-type") then ContentType
    else Other
  }

  /** The decimal number, or -1 if there is anything but digits. */
  function StatusOf(s: seq<byte>): int {
    if s == [] then 0
    else
      var v := StatusOf(s[..|s| - 1]);
      var d := s[|s| - 1] as int;
      if v < 0 || d < 0x30 || d > 0x39 then -1 else 10 * v + d - 0x30
  }

  // ----- Parsing

  const MAX_DECODED: nat := 256

  /** A string that is marked as Huffman coded but is not is taken as it stands. */
  function Text(s: seq<byte>, huffman: bool): seq<byte> {
    if huffman && Huffman.Decode(s, MAX_DECODED).accepted then Huffman.Decode(s, MAX_DECODED).decoded else s
  }

  /** Each of the kept fields may be set once. */
  function SetValue(header: Header, text: seq<byte>, parts: Parts): Option<Parts> {
    match header
    case Method => if parts.verb != METHOD_NONE then None else Some(parts.(verb := MethodByName(text)))
    case ContentType =>
      if parts.contentType != CONTENT_TYPE_NONE then None else Some(parts.(contentType := ContentTypeByName(text)))
    case Status => if parts.status != 0 then None else Some(parts.(status := StatusOf(text)))
    case Path => if parts.path.Some? then None else Some(parts.(path := Some(text)))
    case Other => Some(parts)
  }

  function SetStatic(i: nat, parts: Parts): Option<Parts>
    requires i < NB_STATIC
  {
    match StaticRow(i)
    case (Method, v) => if parts.verb != METHOD_NONE then None else Some(parts.(verb := v))
    case (ContentType, v) => if parts.contentType != CONTENT_TYPE_NONE then None else Some(parts.(contentType := v))
    case (Status, v) => if parts.status != 0 then None else Some(parts.(status := v))
    case (Path, _) => if parts.path.Some? then None else Some(parts.(path := Some(Ascii("/"))))
    case (Other, _) => Some(parts)
  }

  function ParseValue(s: seq<byte>, header: Header, parts: Parts): (r: Option<(nat, Parts)>)
    ensures r.Some? ==> 0 < r.value.0 <= |s|
  {
    if s == [] then None
    else
      var (length, l) :- DecodeInt(s, 0x7F);
      if l + length > |s| then None
      else
        var parts' :- SetValue(header, Text(s[l..l + length], s[0] as int >= 0x80), parts);
        Some((l + length, parts'))
  }

  predicate IsIndexed(b: byte) {
    b as int >= 0xC0
  }

  predicate IsLiteralWithReference(b: byte) {
    0x40 <= b as int < 0x80 && b as int / 16 % 2 == 1
  }

  predicate IsLiteral(b: byte) {
    0x20 <= b as int < 0x40
  }

  /** One field line: the number of bytes it takes, and the parts with its value. */
  function ParseField(s: seq<byte>, parts: Parts): (r: Option<(nat, Parts)>)
    requires s != []
    ensures r.Some? ==> 0 < r.value.0 <= |s|
  {
    if IsIndexed(s[0]) then
      var (i, l) :- DecodeInt(s, 0x3F);
      if i >= NB_STATIC then None
      else
        var parts' :- SetStatic(i, parts);
        Some((l, parts'))
    else if IsLiteralWithReference(s[0]) then
      var (i, l) :- DecodeInt(s, 0x0F);
      if i >= NB_STATIC then None
      else
        var (c, parts') :- ParseValue(s[l..], StaticRow(i).0, parts);
        Some((l + c, parts'))
    else if IsLiteral(s[0]) then
      var (n, l) :- DecodeInt(s, 0x07);
      if l + n > |s| then None
      else
        var header := HeaderByName(Text(s[l..l + n], s[0] as int / 8 % 2 == 1));
        var (c, parts') :- ParseValue(s[l + n..], header, parts);
        Some((l + n + c, parts'))
    else None
  }

  /** The test of the code for an index: `s_index > h3zero_qpack_nb_static` refuses. */
  predicate GuardPasses(i: nat) {
    i <= NB_STATIC
  }

  /** It lets exactly one index pass that has no row, and both kinds of reference can carry it. What the code then reads
      is behind the table; here it is refused. So is a block that ends where a value should begin: the code reads one
      byte behind the block there, before it refuses it too. */
  lemma IndexBehindTable(parts: Parts)
    ensures forall i: nat :: GuardPasses(i) && !(i < NB_STATIC) <==> i == NB_STATIC
    ensures DecodeInt([0xFF, 0x24], 0x3F) == Some((NB_STATIC, 2)) && ParseField([0xFF, 0x24], parts).None?
    ensures DecodeInt([0x5F, 0x54], 0x0F) == Some((NB_STATIC, 2)) && ParseField([0x5F, 0x54], parts).None?
    ensures DecodeInt([0x51], 0x0F) == Some((1, 1)) && ParseField([0x51], parts).None?
  {
    assert [0xFF, 0x24][1..] == [0x24] && [0x5F, 0x54][1..] == [0x54];
  }

  function ParseFields(s: seq<byte>, parts: Parts): Option<Parts> {
    if s == [] then Some(parts)
    else
      var (c, parts') :- ParseField(s, parts);
      ParseFields(s[c..], parts')
  }

  function ParseBlock(s: seq<byte>): Option<Parts> {
    if s == [] || s[0] != 0 then None
    else
      var (_, l) :- DecodeInt(s[1..], 0x7F);
      ParseFields(s[1 + l..], NO_PARTS)
  }

  // ----- The parsing loops

  /** `h3zero_parse_status` */
  method ParseStatus(content: seq<byte>) returns (val: int)
    ensures val == StatusOf(content)
  {
    val := 0;
    var i := 0;
    while i < |content|
      invariant i <= |content| && val == StatusOf(content[..i]) && val >= 0
    {
      assert content[..i + 1][..i] == content[..i];
      if 0x30 <= content[i] as int <= 0x39 {
        val := val * 10 + content[i] as int - 0x30;
      } else {
        NotANumber(content, i + 1);
        return -1;
      }
      i := i + 1;
    }
    assert content[..i] == content;
  }

  lemma {:induction false} NotANumber(s: seq<byte>, i: nat)
    requires i <= |s| && StatusOf(s[..i]) < 0
    ensures StatusOf(s) == -1
    decreases |s| - i
  {
    if i < |s| {
      assert s[..i + 1][..i] == s[..i];
      NotANumber(s, i + 1);
    } else {
      assert s[..i] == s;
    }
  }

  /** The text of a string literal: the decoder writes to a local array of 256 bytes. */
  method ReadText(buf: array<byte>, pos: nat, end: nat, huffman: bool) returns (text: seq<byte>)
    requires pos <= end <= buf.Length
    ensures text == Text(buf[pos..end], huffman)
  {
    hide Huffman.Decode;
    text := buf[pos..end];
    if huffman {
      var deHuff := new byte[MAX_DECODED];
      var accepted, n := Huffman.HuffmanDecode(buf, pos, end, deHuff, MAX_DECODED);
      if accepted {
        text := deHuff[..n];
      }
    }
  }

  /** `h3zero_parse_qpack_header_value` */
  method ReadValue(buf: array<byte>, pos: nat, max: nat, header: Header, parts: Parts) returns (r: Option<(nat, Parts)>)
    requires pos <= max <= buf.Length
    ensures r == At(pos, ParseValue(buf[pos..max], header, parts))
  {
    hide DecodeInt, Text, MethodByName, ContentTypeByName, StatusOf;
    var length := IntDecode(buf, pos, max, 0x7F);
    if length.None? {
      return None;
    }
    var (v, p) := length.value;
    if p + v > max {
      return None;
    }
    var text := ReadText(buf, p, p + v, buf[pos] as int >= 0x80);
    assert buf[pos..max][p - pos..p - pos + v] == buf[p..p + v];
    var parts': Option<Parts>;
    match header {
      case Method => parts' := if parts.verb != METHOD_NONE then None else Some(parts.(verb := MethodByName(text)));
      case ContentType =>
        parts' := if parts.contentType != CONTENT_TYPE_NONE then None
                  else Some(parts.(contentType := ContentTypeByName(text)));
      case Status =>
        var status := ParseStatus(text);
        parts' := if parts.status != 0 then None else Some(parts.(status := status));
      case Path => parts' := if parts.path.Some? then None else Some(parts.(path := Some(text)));
      case Other => parts' := Some(parts);
    }
    if parts'.None? {
      return None;
    }
    return Some((p + v, parts'.value));
  }

  function At(pos: nat, r: Option<(nat, Parts)>): Option<(nat, Parts)> {
    if r.None? then None else Some((pos + r.value.0, r.value.1))
  }

  /** One turn of the loop in `h3zero_parse_qpack_header_frame` */
  method ReadField(buf: array<byte>, pos: nat, max: nat, parts: Parts) returns (r: Option<(nat, Parts)>)
    requires pos < max <= buf.Length
    ensures r == At(pos, ParseField(buf[pos..max], parts))
  {
    hide DecodeInt, Text, HeaderByName, ParseValue, SetStatic;
    var b := buf[pos];
    ghost var s := buf[pos..max];
    if IsIndexed(b) {
      var index := IntDecode(buf, pos, max, 0x3F);
      if index.None? || !GuardPasses(index.value.0) || index.value.0 == NB_STATIC {
        return None;
      }
      var parts' := SetStatic(index.value.0, parts);
      if parts'.None? {
        return None;
      }
      return Some((index.value.1, parts'.value));
    } else if IsLiteralWithReference(b) {
      var index := IntDecode(buf, pos, max, 0x0F);
      if index.None? || !GuardPasses(index.value.0) || index.value.0 == NB_STATIC {
        return None;
      }
      r := ReadValue(buf, index.value.1, max, StaticRow(index.value.0).0, parts);
      assert s[index.value.1 - pos..] == buf[index.value.1..max];
    } else if IsLiteral(b) {
      r := ReadLiteral(buf, pos, max, parts);
    } else {
      return None;
    }
  }

  method ReadLiteral(buf: array<byte>, pos: nat, max: nat, parts: Parts) returns (r: Option<(nat, Parts)>)
    requires pos < max <= buf.Length && IsLiteral(buf[pos])
    ensures r == At(pos, ParseField(buf[pos..max], parts))
  {
    hide DecodeInt, Text, HeaderByName, ParseValue, SetStatic;
    ghost var s := buf[pos..max];
    assert s[0] == buf[pos] && !IsIndexed(s[0]) && !IsLiteralWithReference(s[0]);
    var length := IntDecode(buf, pos, max, 0x07);
    if length.None? || length.value.1 + length.value.0 > max {
      return None;
    }
    var (n, p) := length.value;
    var name := ReadText(buf, p, p + n, buf[pos] as int / 8 % 2 == 1);
    assert s[p - pos..p - pos + n] == buf[p..p + n];
    r := ReadValue(buf, p + n, max, HeaderByName(name), parts);
    assert s[p - pos + n..] == buf[p + n..max];
  }

  /** `h3zero_parse_qpack_header_frame` */
  method ReadBlock(buf: array<byte>, pos: nat, max: nat) returns (r: Option<Parts>)
    requires pos <= max <= buf.Length
    ensures r == ParseBlock(buf[pos..max])
  {
    hide DecodeInt, ParseField;
    if pos >= max || buf[pos] != 0 {
      return None;
    }
    assert buf[pos..max][1..] == buf[pos + 1..max];
    var base := IntDecode(buf, pos + 1, max, 0x7F);
    if base.None? {
      return None;
    }
    var p, parts := base.value.1, NO_PARTS;
    assert buf[pos..max][p - pos..] == buf[p..max];
    while p < max
      invariant pos < p <= max
      invariant ParseBlock(buf[pos..max]) == ParseFields(buf[p..max], parts)
      decreases max - p
    {
      var field := ReadField(buf, p, max, parts);
      if field.None? {
        return None;
      }
      assert buf[p..max][field.value.0 - p..] == buf[field.value.0..max];
      p, parts := field.value.0, field.value.1;
    }
    return Some(parts);
  }
}
