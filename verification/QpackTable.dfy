/** What a field line of a QPACK header block means, told from the static table as Appendix A of RFC 9204 lists it: a
    line names a row, or a row and a value, or a name and a value. */
module QpackTable {
  import opened Wrappers
  import opened Varint
  import opened PrefixInt
  import opened Qpack
  import Huffman

  datatype Row = Row(name: string, value: string)

  /** The rows; those without a value have the empty string. */
  function TableRow(i: nat): Row
    requires i < 99
  {
    if i < 15 then Rows0(i) else if i < 29 then Rows15(i) else if i < 44 then Rows29(i) else if i < 55 then Rows44(i)
    else if i < 72 then Rows55(i) else if i < 79 then Rows72(i) else if i < 86 then Rows79(i) else Rows86(i)
  }

  function Rows0(i: nat): Row
    requires 0 <= i < 15
  {
    if i == 0 then Row(":authority", "")
    else if i == 1 then Row(":path", "/")
    else if i == 2 then Row("age", "0")
    else if i == 3 then Row("content-disposition", "")
    else if i == 4 then Row("content-length", "0")
    else if i == 5 then Row("cookie", "")
    else if i == 6 then Row("date", "")
    else if i == 7 then Row("etag", "")
    else if i == 8 then Row("if-modified-since", "")
    else if i == 9 then Row("if-none-match", "")
    else if i == 10 then Row("last-modified", "")
    else if i == 11 then Row("link", "")
    else if i == 12 then Row("location", "")
    else if i == 13 then Row("referer", "")
    else Row("set-cookie", "")
  }

  function Rows15(i: nat): Row
    requires 15 <= i < 29
  {
    if i == 15 then Row(":method", "CONNECT")
    else if i == 16 then Row(":method", "DELETE")
    else if i == 17 then Row(":method", "GET")
    else if i == 18 then Row(":method", "HEAD")
    else if i == 19 then Row(":method", "OPTIONS")
    else if i == 20 then Row(":method", "POST")
    else if i == 21 then Row(":method", "PUT")
    else if i == 22 then Row(":scheme", "http")
    else if i == 23 then Row(":scheme", "https")
    else if i == 24 then Row(":status", "103")
    else if i == 25 then Row(":status", "200")
    else if i == 26 then Row(":status", "304")
    else if i == 27 then Row(":status", "404")
    else Row(":status", "503")
  }

  function Rows29(i: nat): Row
    requires 29 <= i < 44
  {
    if i == 29 then Row("accept", "*/*")
    else if i == 30 then Row("accept", "application/dns-message")
    else if i == 31 then Row("accept-encoding", "gzip, deflate, br")
    else if i == 32 then Row("accept-ranges", "bytes")
    else if i == 33 then Row("access-control-allow-headers", "cache-control")
    else if i == 34 then Row("access-control-allow-headers", "content-type")
    else if i == 35 then Row("access-control-allow-origin", "*")
    else if i == 36 then Row("cache-control", "max-age=0")
    else if i == 37 then Row("cache-control", "max-age=2592000")
    else if i == 38 then Row("cache-control", "max-age=604800")
    else if i == 39 then Row("cache-control", "no-cache")
    else if i == 40 then Row("cache-control", "no-store")
    else if i == 41 then Row("cache-control", "public, max-age=31536000")
    else if i == 42 then Row("content-encoding", "br")
    else Row("content-encoding", "gzip")
  }

  function Rows44(i: nat): Row
    requires 44 <= i < 55
  {
    if i == 44 then Row("content-type", "application/dns-message")
    else if i == 45 then Row("content-type", "application/javascript")
    else if i == 46 then Row("content-type", "application/json")
    else if i == 47 then Row("content-type", "application/x-www-form-urlencoded")
    else if i == 48 then Row("content-type", "image/gif")
    else if i == 49 then Row("content-type", "image/jpeg")
    else if i == 50 then Row("content-type", "image/png")
    else if i == 51 then Row("content-type", "text/css")
    else if i == 52 then Row("content-type", "text/html; charset=utf-8")
    else if i == 53 then Row("content-type", "text/plain")
    else Row("content-type", "text/plain;charset=utf-8")
  }

  function Rows55(i: nat): Row
    requires 55 <= i < 72
  {
    if i == 55 then Row("range", "bytes=0-")
    else if i == 56 then Row("strict-transport-security", "max-age=31536000")
    else if i == 57 then Row("strict-transport-security", "max-age=31536000; includesubdomains")
    else if i == 58 then Row("strict-transport-security", "max-age=31536000; includesubdomains; preload")
    else if i == 59 then Row("vary", "accept-encoding")
    else if i == 60 then Row("vary", "origin")
    else if i == 61 then Row("x-content-type-options", "nosniff")
    else if i == 62 then Row("x-xss-protection", "1; mode=block")
    else if i == 63 then Row(":status", "100")
    else if i == 64 then Row(":status", "204")
    else if i == 65 then Row(":status", "206")
    else if i == 66 then Row(":status", "302")
    else if i == 67 then Row(":status", "400")
    else if i == 68 then Row(":status", "403")
    else if i == 69 then Row(":status", "421")
    else if i == 70 then Row(":status", "425")
    else Row(":status", "500")
  }

  function Rows72(i: nat): Row
    requires 72 <= i < 79
  {
    if i == 72 then Row("accept-language", "")
    else if i == 73 then Row("access-control-allow-credentials", "FALSE")
    else if i == 74 then Row("access-control-allow-credentials", "TRUE")
    else if i == 75 then Row("access-control-allow-headers", "*")
    else if i == 76 then Row("access-control-allow-methods", "get")
    else if i == 77 then Row("access-control-allow-methods", "get, post, options")
    else Row("access-control-allow-methods", "options")
  }

  function Rows79(i: nat): Row
    requires 79 <= i < 86
  {
    if i == 79 then Row("access-control-expose-headers", "content-length")
    else if i == 80 then Row("access-control-request-headers", "content-type")
    else if i == 81 then Row("access-control-request-method", "get")
    else if i == 82 then Row("access-control-request-method", "post")
    else if i == 83 then Row("alt-svc", "clear")
    else if i == 84 then Row("authorization", "")
    else Row("content-security-policy", "script-src 'none'; object-src 'none'; base-uri 'none'")
  }

  function Rows86(i: nat): Row
    requires 86 <= i < 99
  {
    if i == 86 then Row("early-data", "1")
    else if i == 87 then Row("expect-ct", "")
    else if i == 88 then Row("forwarded", "")
    else if i == 89 then Row("if-range", "")
    else if i == 90 then Row("origin", "")
    else if i == 91 then Row("purpose", "prefetch")
    else if i == 92 then Row("server", "")
    else if i == 93 then Row("timing-allow-origin", "*")
    else if i == 94 then Row("upgrade-insecure-requests", "1")
    else if i == 95 then Row("user-agent", "")
    else if i == 96 then Row("x-forwarded-for", "")
    else if i == 97 then Row("x-frame-options", "deny")
    else Row("x-frame-options", "sameorigin")
  }

  // ----- The effect of a field

  /** The characters as bytes */
  lemma AsciiBytes(s: string)
    ensures |Ascii(s)| == |s| && forall k :: 0 <= k < |s| ==> Ascii(s)[k] as int == s[k] as int % 256
  {
  }

  /** The first row from `i` to `end` with a value */
  function FirstRow(value: seq<byte>, i: nat, end: nat): Option<nat>
    requires i <= end < 99
    decreases end - i
  {
    if Ascii(TableRow(i).value) == value then Some(i) else if i == end then None else FirstRow(value, i + 1, end)
  }

  /** CONNECT, DELETE, GET, HEAD, OPTIONS, POST and PUT are the methods 2 to 8; any other is 1. */
  function MethodNumber(value: seq<byte>): nat {
    var r := FirstRow(value, 15, 21);
    if r.Some? then r.value - 13 else 1
  }

  /** The content types have numbers from 2 on. Of those in the table the program gives 0 to five, which is also the
      number for none; one that is not in the table is 1. */
  function ContentTypeNumber(value: seq<byte>): nat {
    match FirstRow(value, 44, 54)
    case Some(52) => 2
    case Some(53) => 3
    case Some(54) => 3
    case Some(48) => 4
    case Some(49) => 5
    case Some(50) => 6
    case Some(_) => 0
    case None => 1
  }

  /** The number with these decimal digits behind `v`, or -1 if there is anything else among them. */
  function Decimal(s: seq<byte>, v: nat): int {
    if s == [] then v
    else if 0x30 <= s[0] as int <= 0x39 then Decimal(s[1..], 10 * v + (s[0] as int - 0x30))
    else -1
  }

  /** Four fields are kept, each at most once. Nothing is found of the others. */
  function FieldEffect(name: seq<byte>, value: seq<byte>, parts: Parts): Option<Parts> {
    if name == Ascii(":method") then if parts.verb != 0 then None else Some(parts.(verb := MethodNumber(value)))
    else if name == Ascii(":path") then if parts.path.Some? then None else Some(parts.(path := Some(value)))
    else if name == Ascii(":status") then if parts.status != 0 then None else Some(parts.(status := Decimal(value, 0)))
    else if name == Ascii("content-type") then
      if parts.contentType != 0 then None else Some(parts.(contentType := ContentTypeNumber(value)))
    else Some(parts)
  }

  // ----- The names and values that the parser compares

  lemma MethodFound(value: seq<byte>)
    ensures MethodByName(value) == MethodNumber(value)
  {
  }

  lemma ContentTypeFound(value: seq<byte>)
    ensures ContentTypeByName(value) == ContentTypeNumber(value)
  {
    hide Ascii;
  }

  lemma {:induction false} DecimalOn(s: seq<byte>, n: nat)
    requires n <= |s| && StatusOf(s[..n]) >= 0
    ensures StatusOf(s) == Decimal(s[n..], StatusOf(s[..n]))
    decreases |s| - n
  {
    if n == |s| {
      assert s[..n] == s;
    } else {
      assert s[..n + 1][..n] == s[..n] && s[n..][1..] == s[n + 1..];
      if StatusOf(s[..n + 1]) >= 0 {
        DecimalOn(s, n + 1);
      } else {
        NotANumber(s, n + 1);
      }
    }
  }

  lemma DecimalFound(s: seq<byte>)
    ensures StatusOf(s) == Decimal(s, 0)
  {
    assert s[..0] == [] && s[0..] == s;
    DecimalOn(s, 0);
  }

  /** Setting a field by its name and value is the effect of the field. */
  lemma SetByName(name: seq<byte>, value: seq<byte>, parts: Parts)
    ensures SetValue(HeaderByName(name), value, parts) == FieldEffect(name, value, parts)
  {
    hide Ascii, MethodByName, ContentTypeByName, MethodNumber, ContentTypeNumber, StatusOf, Decimal;
    MethodFound(value);
    ContentTypeFound(value);
    DecimalFound(value);
  }

  // ----- The rows

  /** Not the name of a field that is kept */
  predicate IsOtherName(n: string) {
    || (|n| != 5 && |n| != 7 && |n| != 12)
    || n[0] == 'r' || n[0] == 'a' || n[0] == 'p'
    || (|n| == 7 && n[2] == 'c')
  }

  lemma OtherName(n: string)
    requires IsOtherName(n)
    ensures HeaderByName(Ascii(n)) == Other
  {
    AsciiBytes(n);
    AsciiBytes(":method");
    AsciiBytes(":path");
    AsciiBytes(":status");
    AsciiBytes("content-type");
  }

  lemma OtherRow0(i: nat)
    requires 0 <= i < 15 && i != 1
    ensures IsOtherName(Rows0(i).name)
  {
  }

  lemma OtherRow15(i: nat)
    requires 22 <= i <= 23
    ensures IsOtherName(Rows15(i).name)
  {
  }

  lemma OtherRow29(i: nat)
    requires 29 <= i < 44
    ensures IsOtherName(Rows29(i).name)
  {
  }

  lemma OtherRow55(i: nat)
    requires 55 <= i < 63
    ensures IsOtherName(Rows55(i).name)
  {
  }

  lemma OtherRow72(i: nat)
    requires 72 <= i < 79
    ensures IsOtherName(Rows72(i).name)
  {
  }

  lemma OtherRow79(i: nat)
    requires 79 <= i < 86
    ensures IsOtherName(Rows79(i).name)
  {
  }

  lemma OtherRow86(i: nat)
    requires 86 <= i < 99
    ensures IsOtherName(Rows86(i).name)
  {
  }

  lemma OtherRow(i: nat)
    requires i < 99 && i != 1 && !(15 <= i <= 21) && !(24 <= i <= 28) && !(44 <= i <= 54) && !(63 <= i <= 71)
    ensures IsOtherName(TableRow(i).name)
  {
    hide IsOtherName, Rows0, Rows15, Rows29, Rows44, Rows55, Rows72, Rows79, Rows86;
    if i < 15 {
      OtherRow0(i);
    } else if i < 29 {
      OtherRow15(i);
    } else if i < 44 {
      OtherRow29(i);
    } else if i < 72 {
      OtherRow55(i);
    } else if i < 79 {
      OtherRow72(i);
    } else if i < 86 {
      OtherRow79(i);
    } else {
      OtherRow86(i);
    }
  }

  lemma KeptRow(i: nat)
    requires i == 1 || 15 <= i <= 21 || 24 <= i <= 28 || 44 <= i <= 54 || 63 <= i <= 71
    ensures TableRow(i).name
         == if i == 1 then ":path" else if i <= 21 then ":method" else if 44 <= i <= 54 then "content-type" else ":status"
  {
  }

  /** The header of a row is that of its name. */
  lemma RowName(i: nat)
    requires i < 99
    ensures HeaderByName(Ascii(TableRow(i).name)) == StaticRow(i).0
  {
    hide Ascii, TableRow;
    if i == 1 || 15 <= i <= 21 || 24 <= i <= 28 || 44 <= i <= 54 || 63 <= i <= 71 {
      KeptRow(i);
      KeptNames();
    } else {
      OtherRow(i);
      OtherName(TableRow(i).name);
    }
  }

  lemma KeptNames()
    ensures HeaderByName(Ascii(":method")) == Method && HeaderByName(Ascii(":path")) == Path
    ensures HeaderByName(Ascii(":status")) == Status && HeaderByName(Ascii("content-type")) == ContentType
  {
    AsciiBytes(":method");
    AsciiBytes(":path");
    AsciiBytes(":status");
    AsciiBytes("content-type");
    assert Ascii(":method")[1] != Ascii(":status")[1];
    hide Ascii;
  }

  lemma ThreeDigits(s: seq<byte>)
    requires |s| == 3 && forall k :: 0 <= k < 3 ==> 0x30 <= s[k] as int <= 0x39
    ensures Decimal(s, 0) == 100 * (s[0] as int - 0x30) + 10 * (s[1] as int - 0x30) + (s[2] as int - 0x30)
  {
    assert s[1..][1..] == s[2..] && s[2..][1..] == [];
    assert Decimal(s[2..], 10 * (s[0] as int - 0x30) + (s[1] as int - 0x30)) >= 0;
  }

  lemma StatusRow(i: nat)
    requires 24 <= i <= 28 || 63 <= i <= 71
    ensures StaticRow(i).1 == Decimal(Ascii(TableRow(i).value), 0)
  {
    hide Decimal;
    if i <= 28 {
      StatusDigits(Rows15(i).value, StaticRow(i).1);
    } else {
      StatusDigits(Rows55(i).value, StaticRow(i).1);
    }
  }

  lemma StatusDigits(v: string, n: nat)
    requires |v| == 3 && forall k :: 0 <= k < 3 ==> '0' <= v[k] <= '9'
    requires n == 100 * (v[0] as int - 0x30) + 10 * (v[1] as int - 0x30) + (v[2] as int - 0x30)
    ensures Decimal(Ascii(v), 0) == n
  {
    hide Decimal;
    AsciiBytes(v);
    ThreeDigits(Ascii(v));
  }

  /** The rows of a range have different values. */
  predicate Distinct(first: nat, last: nat)
    requires last < 99
  {
    forall i: nat, j: nat :: first <= i < j <= last ==> Ascii(TableRow(i).value) != Ascii(TableRow(j).value)
  }

  lemma OtherBytes(v: string, w: string, k: nat)
    requires |v| == |w| ==> k < |v| && v[k] as int % 256 != w[k] as int % 256
    ensures Ascii(v) != Ascii(w)
  {
    AsciiBytes(v);
    AsciiBytes(w);
    if |v| == |w| {
      assert Ascii(v)[k] != Ascii(w)[k];
    }
  }

  lemma DistinctMethods()
    ensures Distinct(15, 21)
  {
    forall i: nat, j: nat | 15 <= i < j <= 21
      ensures Ascii(TableRow(i).value) != Ascii(TableRow(j).value)
    {
      assert TableRow(i) == Rows15(i) && TableRow(j) == Rows15(j);
      OtherBytes(Rows15(i).value, Rows15(j).value, 0);
    }
  }

  lemma DistinctContentTypes()
    ensures Distinct(44, 54)
  {
    forall i: nat, j: nat | 44 <= i < j <= 54
      ensures Ascii(TableRow(i).value) != Ascii(TableRow(j).value)
    {
      assert TableRow(i) == Rows44(i) && TableRow(j) == Rows44(j);
      OtherBytes(Rows44(i).value, Rows44(j).value, 6);
    }
  }

  lemma {:induction false} ValueFound(i: nat, first: nat, last: nat)
    requires first <= i <= last < 99 && Distinct(first, last)
    ensures FirstRow(Ascii(TableRow(i).value), first, last) == Some(i)
    decreases i - first
  {
    hide TableRow, Ascii;
    if first < i {
      ValueFound(i, first + 1, last);
    }
  }

  lemma KeptValue(i: nat)
    requires i < 99 && StaticRow(i).0 != Other
    ensures var (header, n), v := StaticRow(i), Ascii(TableRow(i).value);
            match header
            case Method => n == MethodNumber(v)
            case Path => v == Ascii("/")
            case Status => n == Decimal(v, 0)
            case ContentType => n == ContentTypeNumber(v)
  {
    hide Ascii, MethodNumber, ContentTypeNumber, Decimal, TableRow, FirstRow, Distinct;
    if i == 1 {
      assert TableRow(1).value == "/" by { RootRow(); }
    } else if 15 <= i <= 21 {
      DistinctMethods();
      ValueFound(i, 15, 21);
      SeenNumbers(i);
    } else if 44 <= i <= 54 {
      DistinctContentTypes();
      ValueFound(i, 44, 54);
      SeenNumbers(i);
    } else {
      StatusRow(i);
    }
  }

  lemma SeenNumbers(i: nat)
    requires 15 <= i <= 21 || 44 <= i <= 54
    requires FirstRow(Ascii(TableRow(i).value), if i <= 21 then 15 else 44, if i <= 21 then 21 else 54) == Some(i)
    ensures StaticRow(i).1
         == if i <= 21 then MethodNumber(Ascii(TableRow(i).value)) else ContentTypeNumber(Ascii(TableRow(i).value))
  {
    hide TableRow, Ascii, FirstRow;
  }

  lemma RootRow()
    ensures TableRow(1).value == "/"
  {
  }

  /** A row sets what its name and its value set. */
  lemma SetByRow(i: nat, parts: Parts)
    requires i < 99
    ensures SetStatic(i, parts) == FieldEffect(Ascii(TableRow(i).name), Ascii(TableRow(i).value), parts)
  {
    hide Ascii, TableRow, MethodByName, ContentTypeByName, MethodNumber, ContentTypeNumber, StatusOf, Decimal;
    RowName(i);
    SetByName(Ascii(TableRow(i).name), Ascii(TableRow(i).value), parts);
    if StaticRow(i).0 != Other {
      KeptValue(i);
    }
  }

  /** The methods as bytes */
  lemma MethodBytes()
    ensures MethodNumber([0x43, 0x4F, 0x4E, 0x4E, 0x45, 0x43, 0x54]) == 2
    ensures MethodNumber([0x44, 0x45, 0x4C, 0x45, 0x54, 0x45]) == 3
    ensures MethodNumber([0x47, 0x45, 0x54]) == 4
    ensures MethodNumber([0x48, 0x45, 0x41, 0x44]) == 5
    ensures MethodNumber([0x4F, 0x50, 0x54, 0x49, 0x4F, 0x4E, 0x53]) == 6
    ensures MethodNumber([0x50, 0x4F, 0x53, 0x54]) == 7
    ensures MethodNumber([0x50, 0x55, 0x54]) == 8
  {
    assert Ascii("CONNECT") == [0x43, 0x4F, 0x4E, 0x4E, 0x45, 0x43, 0x54];
    assert Ascii("DELETE") == [0x44, 0x45, 0x4C, 0x45, 0x54, 0x45];
    assert Ascii("GET") == [0x47, 0x45, 0x54];
    assert Ascii("HEAD") == [0x48, 0x45, 0x41, 0x44];
    assert Ascii("OPTIONS") == [0x4F, 0x50, 0x54, 0x49, 0x4F, 0x4E, 0x53];
    assert Ascii("POST") == [0x50, 0x4F, 0x53, 0x54];
    assert Ascii("PUT") == [0x50, 0x55, 0x54];
    MethodRow(15, [0x43, 0x4F, 0x4E, 0x4E, 0x45, 0x43, 0x54]);
    MethodRow(16, [0x44, 0x45, 0x4C, 0x45, 0x54, 0x45]);
    MethodRow(17, [0x47, 0x45, 0x54]);
    MethodRow(18, [0x48, 0x45, 0x41, 0x44]);
    MethodRow(19, [0x4F, 0x50, 0x54, 0x49, 0x4F, 0x4E, 0x53]);
    MethodRow(20, [0x50, 0x4F, 0x53, 0x54]);
    MethodRow(21, [0x50, 0x55, 0x54]);
  }

  lemma MethodRow(i: nat, value: seq<byte>)
    requires 15 <= i <= 21 && value == Ascii(TableRow(i).value)
    ensures MethodNumber(value) == i - 13
  {
    hide Ascii, TableRow, Distinct, FirstRow;
    DistinctMethods();
    ValueFound(i, 15, 21);
  }

  // ----- Lines

  /** A string on the wire, Huffman coded or as it stands */
  datatype Str = Str(huffman: bool, bytes: seq<byte>)

  datatype Line =
    | ByIndex(i: nat)
    | ByReference(never: bool, i: nat, value: Str)
    | ByName(never: bool, name: Str, value: Str)

  /** The string is coded by Appendix B of RFC 7541, or marked as coded but refused by the decoder, or plain. */
  ghost predicate StandsFor(c: Str, s: seq<byte>) {
    && |c.bytes| < TWO_62
    && if c.huffman then
         (|s| <= 256 && exists n: nat :: n <= 7 && Huffman.ByteBits(c.bytes) == Huffman.Encoded(s) + Huffman.Ones(n))
         || (!Huffman.Decode(c.bytes, 256).accepted && s == c.bytes)
       else s == c.bytes
  }

  ghost predicate IsLineOf(line: Line, name: seq<byte>, value: seq<byte>) {
    match line
    case ByIndex(i) => i < 99 && name == Ascii(TableRow(i).name) && value == Ascii(TableRow(i).value)
    case ByReference(_, i, v) => i < 99 && name == Ascii(TableRow(i).name) && StandsFor(v, value)
    case ByName(_, n, v) => StandsFor(n, name) && StandsFor(v, value)
  }

  function StrBytes(c: Str): seq<byte> {
    IntBytes(if c.huffman then 0x80 else 0x00, 0x7F, |c.bytes|) + c.bytes
  }

  /** The first byte of a line with a name: the bit for fields that are never indexed, and the one for Huffman coding */
  function NamePrefix(never: bool, huffman: bool): byte {
    if never then (if huffman then 0x38 else 0x30) else if huffman then 0x28 else 0x20
  }

  function LineBytes(line: Line): seq<byte> {
    match line
    case ByIndex(i) => IntBytes(0xC0, 0x3F, i)
    case ByReference(never, i, v) => IntBytes(if never then 0x70 else 0x50, 0x0F, i) + StrBytes(v)
    case ByName(never, n, v) => IntBytes(NamePrefix(never, n.huffman), 0x07, |n.bytes|) + n.bytes + StrBytes(v)
  }

  /** What reading `n` bytes leads to */
  function After(n: nat, effect: Option<Parts>): Option<(nat, Parts)> {
    if effect.None? then None else Some((n, effect.value))
  }

  lemma TextOf(c: Str, s: seq<byte>)
    requires StandsFor(c, s)
    ensures Text(c.bytes, c.huffman) == s
  {
    hide Huffman.Decode, Huffman.Encoded, Huffman.ByteBits, Huffman.Ones;
    if c.huffman && !(!Huffman.Decode(c.bytes, 256).accepted && s == c.bytes) {
      var n: nat :| n <= 7 && Huffman.ByteBits(c.bytes) == Huffman.Encoded(s) + Huffman.Ones(n);
      Huffman.HuffmanRoundTrip(s, n, c.bytes, 256);
    }
  }

  lemma FirstOf(prefix: byte, mask: nat, val: nat, rest: seq<byte>)
    requires IsMask(mask) && IsPrefix(prefix, mask)
    ensures var s := IntBytes(prefix, mask, val) + rest; s != [] && prefix <= s[0] && s[0] as int <= prefix as int + mask
  {
  }

  lemma ValueRead(c: Str, s: seq<byte>, rest: seq<byte>, header: Header, parts: Parts)
    requires |c.bytes| < TWO_62 && Text(c.bytes, c.huffman) == s
    ensures ParseValue(StrBytes(c) + rest, header, parts) == After(|StrBytes(c)|, SetValue(header, s, parts))
  {
    hide IntBytes, DecodeInt, SetValue, Text;
    var prefix: byte := if c.huffman then 0x80 else 0x00;
    var length := IntBytes(prefix, 0x7F, |c.bytes|);
    var w := StrBytes(c) + rest;
    assert w == length + (c.bytes + rest);
    IntRoundTrip(prefix, 0x7F, |c.bytes|, c.bytes + rest);
    FirstOf(prefix, 0x7F, |c.bytes|, c.bytes + rest);
    assert w[|length|..|length| + |c.bytes|] == c.bytes;
  }

  lemma IndexRead(i: nat, rest: seq<byte>, parts: Parts)
    requires i < TWO_62
    ensures var w := IntBytes(0xC0, 0x3F, i);
            ParseField(w + rest, parts) == if i < 99 then After(|w|, SetStatic(i, parts)) else None
  {
    hide IntBytes, DecodeInt, SetStatic;
    IntRoundTrip(0xC0, 0x3F, i, rest);
    FirstOf(0xC0, 0x3F, i, rest);
  }

  lemma ReferenceRead(never: bool, i: nat, value: seq<byte>, rest: seq<byte>, parts: Parts, effect: Option<Parts>)
    requires i < TWO_62
    requires i < 99 ==> ParseValue(value + rest, StaticRow(i).0, parts) == After(|value|, effect)
    ensures var w := IntBytes(if never then 0x70 else 0x50, 0x0F, i) + value;
            ParseField(w + rest, parts) == if i < 99 then After(|w|, effect) else None
  {
    hide IntBytes, DecodeInt, ParseValue, StaticRow;
    var prefix: byte := if never then 0x70 else 0x50;
    var name := IntBytes(prefix, 0x0F, i);
    var w := name + value + rest;
    assert w == name + (value + rest);
    IntRoundTrip(prefix, 0x0F, i, value + rest);
    FirstOf(prefix, 0x0F, i, value + rest);
    assert w[|name|..] == value + rest;
  }

  lemma NameByte(never: bool, huffman: bool, b: byte)
    requires NamePrefix(never, huffman) <= b && b as int <= NamePrefix(never, huffman) as int + 7
    ensures IsLiteral(b) && (b as int / 8 % 2 == 1 <==> huffman)
  {
  }

  lemma NameRead(never: bool, n: Str, name: seq<byte>, value: seq<byte>, rest: seq<byte>, parts: Parts,
                 effect: Option<Parts>)
    requires |n.bytes| < TWO_62 && Text(n.bytes, n.huffman) == name
    requires ParseValue(value + rest, HeaderByName(name), parts) == After(|value|, effect)
    ensures var w := IntBytes(NamePrefix(never, n.huffman), 0x07, |n.bytes|) + n.bytes + value;
            ParseField(w + rest, parts) == After(|w|, effect)
  {
    hide IntBytes, DecodeInt, ParseValue, HeaderByName, Text, NamePrefix, IsLiteral;
    var prefix := NamePrefix(never, n.huffman);
    NamePrefixes(never, n.huffman);
    var length := IntBytes(prefix, 0x07, |n.bytes|);
    var w := length + n.bytes + value + rest;
    var tail := n.bytes + (value + rest);
    assert w == length + tail;
    IntRoundTrip(prefix, 0x07, |n.bytes|, tail);
    FirstOf(prefix, 0x07, |n.bytes|, tail);
    NameByte(never, n.huffman, w[0]);
    NamedFirst(w[0]);
    assert w[|length|..|length| + |n.bytes|] == n.bytes;
    assert w[|length| + |n.bytes|..] == value + rest;
  }

  lemma NamePrefixes(never: bool, huffman: bool)
    ensures IsPrefix(NamePrefix(never, huffman), 0x07)
  {
  }

  lemma NamedFirst(b: byte)
    requires IsLiteral(b)
    ensures !IsIndexed(b) && !IsLiteralWithReference(b)
  {
  }

  /** A line has the effect of the field that it names, whether by a row, by a row and a value, or by name and value. */
  lemma LineRead(line: Line, name: seq<byte>, value: seq<byte>, rest: seq<byte>, parts: Parts)
    requires IsLineOf(line, name, value)
    ensures ParseField(LineBytes(line) + rest, parts) == After(|LineBytes(line)|, FieldEffect(name, value, parts))
  {
    hide IntBytes, ParseField, ParseValue, StandsFor, FieldEffect, SetValue, SetStatic, HeaderByName, StaticRow, TableRow,
         Ascii, StrBytes, NamePrefix, Text;
    match line
    case ByIndex(i) =>
      SetByRow(i, parts);
      IndexRead(i, rest, parts);
    case ByReference(never, i, v) =>
      ValueKnown(v, value, rest, StaticRow(i).0, parts);
      RowName(i);
      SetByName(name, value, parts);
      ReferenceRead(never, i, StrBytes(v), rest, parts, FieldEffect(name, value, parts));
    case ByName(never, n, v) =>
      ValueKnown(v, value, rest, HeaderByName(name), parts);
      SetByName(name, value, parts);
      TextOf(n, name);
      ShortString(n, name);
      NameRead(never, n, name, StrBytes(v), rest, parts, FieldEffect(name, value, parts));
  }

  lemma ShortString(c: Str, s: seq<byte>)
    requires StandsFor(c, s)
    ensures |c.bytes| < TWO_62
  {
  }

  lemma ValueKnown(c: Str, s: seq<byte>, rest: seq<byte>, header: Header, parts: Parts)
    requires StandsFor(c, s)
    ensures ParseValue(StrBytes(c) + rest, header, parts) == After(|StrBytes(c)|, SetValue(header, s, parts))
  {
    hide StandsFor, StrBytes, SetValue, ParseValue, Text;
    TextOf(c, s);
    ShortString(c, s);
    ValueRead(c, s, rest, header, parts);
  }

  predicate OtherStart(b: int) {
    b < 0x20 || 0x40 <= b < 0x50 || 0x60 <= b < 0x70 || 0x80 <= b < 0xC0
  }

  /** A reference to a row that does not exist is refused, and so is a line that starts in another way: with a reference
      to a dynamic table. */
  lemma LineRefused(i: nat, value: seq<byte>, parts: Parts, s: seq<byte>)
    requires 99 <= i < TWO_62 && s != [] && OtherStart(s[0] as int)
    ensures ParseField(IntBytes(0xC0, 0x3F, i), parts).None? && ParseField(IntBytes(0x50, 0x0F, i) + value, parts).None?
    ensures ParseField(s, parts).None?
  {
    hide IntBytes, ParseField, OtherStart;
    IndexRead(i, [], parts);
    assert IntBytes(0xC0, 0x3F, i) + [] == IntBytes(0xC0, 0x3F, i);
    ReferenceRead(false, i, value, [], parts, None);
    var w := IntBytes(0x50, 0x0F, i) + value;
    assert w + [] == w;
    StartRefused(s, parts);
  }

  lemma StartRefused(s: seq<byte>, parts: Parts)
    requires s != [] && OtherStart(s[0] as int)
    ensures ParseField(s, parts).None?
  {
  }

  // ----- Blocks

  function Lines(lines: seq<Line>): seq<byte> {
    if lines == [] then [] else LineBytes(lines[0]) + Lines(lines[1..])
  }

  ghost predicate AreLinesOf(lines: seq<Line>, fields: seq<(seq<byte>, seq<byte>)>) {
    |lines| == |fields| && forall k :: 0 <= k < |lines| ==> IsLineOf(lines[k], fields[k].0, fields[k].1)
  }

  function Effects(fields: seq<(seq<byte>, seq<byte>)>, parts: Parts): Option<Parts> {
    if fields == [] then Some(parts)
    else
      var parts' :- FieldEffect(fields[0].0, fields[0].1, parts);
      Effects(fields[1..], parts')
  }

  lemma {:induction false} LinesRead(lines: seq<Line>, fields: seq<(seq<byte>, seq<byte>)>, parts: Parts)
    requires AreLinesOf(lines, fields)
    ensures ParseFields(Lines(lines), parts) == Effects(fields, parts)
    decreases |lines|
  {
    hide LineBytes, ParseField, FieldEffect, IsLineOf;
    if lines != [] {
      var w, rest := LineBytes(lines[0]), Lines(lines[1..]);
      LineRead(lines[0], fields[0].0, fields[0].1, rest, parts);
      LineNotEmpty(lines[0]);
      assert (w + rest)[|w|..] == rest;
      var effect := FieldEffect(fields[0].0, fields[0].1, parts);
      if effect.Some? {
        LinesRead(lines[1..], fields[1..], effect.value);
      }
    }
  }

  lemma LineNotEmpty(line: Line)
    ensures LineBytes(line) != []
  {
  }

  /** A block means its fields, in whichever form they are written: two blocks of the same fields have the same outcome,
      and none is accepted in one form and refused in another. The sign and the delta of the base are ignored. */
  lemma BlockRead(sign: bool, delta: nat, lines: seq<Line>, fields: seq<(seq<byte>, seq<byte>)>)
    requires AreLinesOf(lines, fields) && delta < TWO_62
    ensures ParseBlock([0] + (IntBytes(if sign then 0x80 else 0x00, 0x7F, delta) + Lines(lines)))
         == Effects(fields, Parts(0, None, 0, 0))
  {
    hide IntBytes, DecodeInt, ParseFields, Lines, AreLinesOf, Effects;
    var prefix: byte := if sign then 0x80 else 0x00;
    var base := IntBytes(prefix, 0x7F, delta);
    var s := [0] + (base + Lines(lines));
    assert s[1..] == base + Lines(lines);
    IntRoundTrip(prefix, 0x7F, delta, Lines(lines));
    assert s[1 + |base|..] == Lines(lines);
    LinesRead(lines, fields, NO_PARTS);
  }

  /** The shortest request: GET by row 17, then the path "/" by row 1. */
  lemma RootRequest()
    ensures ParseBlock([0x00, 0x00, 0xD1, 0xC1]) == Some(Parts(4, Some([0x2F]), 0, 0))
  {
    hide ParseBlock, TableRow, Ascii, FieldEffect, SetStatic;
    var get := (Ascii(TableRow(17).name), Ascii(TableRow(17).value));
    var root := (Ascii(TableRow(1).name), Ascii(TableRow(1).value));
    var fields: seq<(seq<byte>, seq<byte>)> := [get, root];
    BlockRead(false, 0, [ByIndex(17), ByIndex(1)], fields);
    RootBytes();
    RootFields();
    var p := Parts(4, None, 0, 0);
    assert fields[1..] == [root];
    assert Effects([root], p) == Effects([root][1..], Parts(4, Some([0x2F]), 0, 0));
    assert Effects(fields, Parts(0, None, 0, 0)) == Effects([root], p);
  }

  lemma RootBytes()
    ensures [0x00, 0x00, 0xD1, 0xC1] == [0] + (IntBytes(0x00, 0x7F, 0) + Lines([ByIndex(17), ByIndex(1)]))
  {
    assert [ByIndex(17), ByIndex(1)][1..] == [ByIndex(1)] && [ByIndex(1)][1..] == [];
    assert Lines([ByIndex(1)]) == [0xC1] && Lines([ByIndex(17), ByIndex(1)]) == [0xD1] + [0xC1];
  }

  lemma RootFields()
    ensures FieldEffect(Ascii(TableRow(17).name), Ascii(TableRow(17).value), Parts(0, None, 0, 0))
         == Some(Parts(4, None, 0, 0))
    ensures FieldEffect(Ascii(TableRow(1).name), Ascii(TableRow(1).value), Parts(4, None, 0, 0))
         == Some(Parts(4, Some([0x2F]), 0, 0))
  {
    SetByRow(17, Parts(0, None, 0, 0));
    SetByRow(1, Parts(4, None, 0, 0));
    assert Ascii("/") == [0x2F];
    hide FieldEffect, TableRow;
  }
}
