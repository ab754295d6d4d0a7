/** UaNodeId: the printer toFullString and what its text identifies. */
module NodeIdText {
  import opened Common

  type Byte = x: int | 0 <= x < 0x100
  type UInt16 = x: int | 0 <= x < 0x1_0000
  type EightBytes = s: seq<Byte> | |s| == 8 witness [0, 0, 0, 0, 0, 0, 0, 0]

  /** The four identifier types of UA_NodeId; a char stands for one byte of a string identifier. */
  datatype Identifier =
    | Numeric(id: UInt32)
    | String(text: string)
    | Opaque(bytes: seq<Byte>)
    | Guid(data1: UInt32, data2: UInt16, data3: UInt16, data4: EightBytes)

  datatype NodeId = NodeId(ns: UInt16, identifier: Identifier)

  // ---------------------------------------------------------------- number formats

  const DIGITS := "0123456789abcdef"

  predicate IsDigit(c: char) {
    '0' <= c <= '9'
  }

  function Digit(n: int): char
    requires 0 <= n < 16
  {
    DIGITS[n]
  }

  function DigitValue(c: char): int {
    if '0' <= c <= '9' then c as int - '0' as int else c as int - 'a' as int + 10
  }

  /** Decimal notation without leading zeros, as boost::lexical_cast writes it. */
  function Decimal(n: nat): (s: string)
    ensures s != "" && forall i :: 0 <= i < |s| ==> IsDigit(s[i])
  {
    if n < 10 then [Digit(n)] else Decimal(n / 10) + [Digit(n % 10)]
  }

  /** Exactly `width` lower-case hexadecimal digits: the %0<width>x format for a number that fits. */
  function Hex(width: nat, n: nat): (s: string)
    ensures |s| == width
  {
    if width == 0 then "" else Hex(width - 1, n / 16) + [Digit(n % 16)]
  }

  function ValueOf(s: string, base: int): int {
    if s == "" then 0 else ValueOf(s[..|s|-1], base) * base + DigitValue(s[|s|-1])
  }

  lemma DigitHasItsValue(n: int)
    requires 0 <= n < 16
    ensures DigitValue(Digit(n)) == n
  {
  }

  lemma {:induction false} DecimalReadsBack(n: nat)
    ensures ValueOf(Decimal(n), 10) == n
  {
    DigitHasItsValue(n % 10);
    if n >= 10 {
      var front := Decimal(n / 10);
      DecimalReadsBack(n / 10);
      assert Decimal(n)[..|front|] == front;
    } else {
      assert Decimal(n) == [Digit(n)];
    }
  }

  /** Only zero is written with a leading zero. */
  lemma {:induction false} NoLeadingZero(n: nat)
    ensures Decimal(n)[0] == '0' <==> n == 0
  {
    if n >= 10 {
      NoLeadingZero(n / 10);
    }
  }

  function Pow16(width: nat): nat {
    if width == 0 then 1 else 16 * Pow16(width - 1)
  }

  lemma {:induction false} HexReadsBack(width: nat, n: nat)
    requires n < Pow16(width)
    ensures ValueOf(Hex(width, n), 16) == n
  {
    if width > 0 {
      DigitHasItsValue(n % 16);
      HexReadsBack(width - 1, n / 16);
      var front := Hex(width - 1, n / 16);
      assert Hex(width, n)[..|front|] == front;
    }
  }

  lemma Widths()
    ensures Pow16(2) == 0x100 && Pow16(4) == 0x1_0000 && Pow16(8) == TWO_TO_THE_32
  {
    assert Pow16(5) == 0x10_0000 && Pow16(6) == 0x100_0000 && Pow16(7) == 0x1000_0000;
  }

  function HexBytes(bytes: seq<Byte>): (s: string)
    ensures |s| == 2 * |bytes|
  {
    if bytes == [] then "" else HexBytes(bytes[..|bytes|-1]) + Hex(2, bytes[|bytes|-1])
  }

  lemma HexBytesUnfolds(front: seq<Byte>, last: Byte)
    ensures HexBytes(front + [last]) == HexBytes(front) + Hex(2, last)
  {
    assert (front + [last])[..|front|] == front;
  }

  lemma PairOf(b: Byte)
    ensures Hex(2, b) == ["0123456789abcdef"[b / 16], "0123456789abcdef"[b % 16]]
  {
    assert Hex(1, b / 16) == [Digit(b / 16)];
  }

  /** Every byte has two lower-case digits, a leading zero included. */
  lemma {:induction false} TwoDigitsEach(bytes: seq<Byte>, i: nat)
    requires i < |bytes|
    ensures HexBytes(bytes)[2 * i] == "0123456789abcdef"[bytes[i] / 16]
    ensures HexBytes(bytes)[2 * i + 1] == "0123456789abcdef"[bytes[i] % 16]
  {
    var front, last := bytes[..|bytes|-1], bytes[|bytes|-1];
    assert bytes == front + [last];
    HexBytesUnfolds(front, last);
    if i < |front| {
      TwoDigitsEach(front, i);
    } else {
      PairOf(last);
    }
  }

  /** The bytes that pairs of hexadecimal digits stand for. */
  function BytesOf(s: string): seq<Byte> {
    if |s| < 2 then [] else BytesOf(s[..|s|-2]) + [ValueOf(s[|s|-2..], 16) % 0x100]
  }

  lemma PairAppends(s: string, pair: string)
    requires |pair| == 2
    ensures BytesOf(s + pair) == BytesOf(s) + [ValueOf(pair, 16) % 0x100]
  {
    assert (s + pair)[..|s + pair|-2] == s && (s + pair)[|s + pair|-2..] == pair;
  }

  lemma PairReadsBack(b: Byte)
    ensures ValueOf(Hex(2, b), 16) % 0x100 == b
  {
    Widths();
    HexReadsBack(2, b);
  }

  lemma ByteAppends(s: string, b: Byte)
    ensures BytesOf(s + Hex(2, b)) == BytesOf(s) + [b]
  {
    PairAppends(s, Hex(2, b));
    PairReadsBack(b);
  }

  lemma {:induction false} BytesReadBack(bytes: seq<Byte>)
    ensures BytesOf(HexBytes(bytes)) == bytes
  {
    if bytes != [] {
      var front, last := bytes[..|bytes|-1], bytes[|bytes|-1];
      assert bytes == front + [last];
      HexBytesUnfolds(front, last);
      BytesReadBack(front);
      ByteAppends(HexBytes(front), last);
    }
  }

  // ---------------------------------------------------------------- C strings

  /** What a C string shows of a text: everything before the first NUL. */
  function UpToNul(s: string): string {
    if s == "" || s[0] == '\0' then "" else [s[0]] + UpToNul(s[1..])
  }

  predicate NulFree(s: string) {
    '\0' !in s
  }

  /** The shown part is the front of the text that ends at the first NUL, or all of it. */
  lemma {:induction false} NulFreeShowsAll(s: string)
    ensures NulFree(UpToNul(s)) && UpToNul(s) <= s
    ensures UpToNul(s) == s || s[|UpToNul(s)|] == '\0'
    ensures NulFree(s) ==> UpToNul(s) == s
  {
    if s != "" {
      NulFreeShowsAll(s[1..]);
    }
  }

  /** snprintf keeps what fits beside the terminating NUL. */
  function Snprintf(size: nat, s: string): string
    requires size > 0
  {
    if |s| < size then s else s[..size-1]
  }

  // ---------------------------------------------------------------- the printer

  function GuidText(d1: UInt32, d2: UInt16, d3: UInt16, d4: EightBytes): (s: string)
    ensures |s| == 41
  {
    "Guid|" + Hex(8, d1) + "-" + Hex(4, d2) + "-" + Hex(4, d3) + "-" + HexBytes(d4[..2]) + "-" + HexBytes(d4[2..])
  }

  function Body(id: Identifier): string {
    match id
    case Numeric(n) => "Numeric|" + Decimal(n)
    case String(text) => "String|" + UpToNul(text)
    case Opaque(bytes) => "Opaque|0x" + HexBytes(bytes)
    case Guid(d1, d2, d3, d4) => GuidText(d1, d2, d3, d4)
  }

  function FullText(id: NodeId): string {
    "NS" + Decimal(id.ns) + "|" + Body(id.identifier)
  }

  /** The 42-byte buffer holds every GUID text, and no smaller one would. */
  lemma GuidBufferSuffices(d1: UInt32, d2: UInt16, d3: UInt16, d4: EightBytes)
    ensures Snprintf(42, GuidText(d1, d2, d3, d4)) == GuidText(d1, d2, d3, d4)
    ensures forall size: nat :: 0 < size < 42 ==> Snprintf(size, GuidText(d1, d2, d3, d4)) != GuidText(d1, d2, d3, d4)
  {
  }

  method ToFullString(id: NodeId) returns (text: string)
    ensures text == FullText(id)
  {
    text := "NS" + Decimal(id.ns) + "|";
    ghost var head := text;
    match id.identifier {
      case Numeric(n) =>
        text := text + ("Numeric|" + Decimal(n));
      case String(s) =>
        text := text + "String|";
        text := text + UpToNul(s);
      case Opaque(bytes) =>
        text := text + "Opaque|0x";
        for i := 0 to |bytes|
          invariant text == head + ("Opaque|0x" + HexBytes(bytes[..i]))
        {
          assert bytes[..i+1][..i] == bytes[..i];
          text := text + Snprintf(3, Hex(2, bytes[i]));
        }
        assert bytes[..|bytes|] == bytes;
      case Guid(d1, d2, d3, d4) =>
        GuidBufferSuffices(d1, d2, d3, d4);
        text := text + Snprintf(42, GuidText(d1, d2, d3, d4));
    }
    assert text == FullText(id);
    FullTextIsNulFree(id);
    NulFreeShowsAll(text);
    text := UpToNul(text);
  }

  lemma {:induction false} HexIsNulFree(width: nat, n: nat)
    ensures NulFree(Hex(width, n))
  {
    if width > 0 {
      HexIsNulFree(width - 1, n / 16);
    }
  }

  lemma {:induction false} HexBytesIsNulFree(bytes: seq<Byte>)
    ensures NulFree(HexBytes(bytes))
  {
    if bytes != [] {
      HexBytesIsNulFree(bytes[..|bytes|-1]);
      HexIsNulFree(2, bytes[|bytes|-1]);
    }
  }

  lemma NulFreeConcat(x: string, y: string)
    ensures NulFree(x + y) <==> NulFree(x) && NulFree(y)
  {
  }

  lemma OpaqueIsNulFree(bytes: seq<Byte>)
    ensures NulFree("Opaque|0x" + HexBytes(bytes))
  {
    HexBytesIsNulFree(bytes);
    NulFreeConcat("Opaque|0x", HexBytes(bytes));
  }

  lemma GuidIsNulFree(d1: UInt32, d2: UInt16, d3: UInt16, d4: EightBytes)
    ensures NulFree(GuidText(d1, d2, d3, d4))
  {
    HexIsNulFree(8, d1);
    HexIsNulFree(4, d2);
    HexIsNulFree(4, d3);
    HexBytesIsNulFree(d4[..2]);
    HexBytesIsNulFree(d4[2..]);
    var s1 := "Guid|" + Hex(8, d1) + "-" + Hex(4, d2);
    var s2 := s1 + "-" + Hex(4, d3) + "-" + HexBytes(d4[..2]);
    assert NulFree(s1);
    assert NulFree(s2);
    assert GuidText(d1, d2, d3, d4) == s2 + "-" + HexBytes(d4[2..]);
  }

  lemma BodyIsNulFree(id: Identifier)
    ensures NulFree(Body(id))
  {
    match id
    case Numeric(n) => NulFreeConcat("Numeric|", Decimal(n));
    case String(text) =>
      NulFreeShowsAll(text);
      NulFreeConcat("String|", UpToNul(text));
    case Opaque(bytes) => OpaqueIsNulFree(bytes);
    case Guid(d1, d2, d3, d4) => GuidIsNulFree(d1, d2, d3, d4);
  }

  lemma FullTextIsNulFree(id: NodeId)
    ensures NulFree(FullText(id))
  {
    BodyIsNulFree(id.identifier);
  }

  // ---------------------------------------------------------------- what the text identifies

  /** The part of an id its text can show: a string identifier up to its first NUL. */
  function Visible(id: Identifier): Identifier {
    match id
    case String(text) => String(UpToNul(text))
    case _ => id
  }

  function IndexOf(s: string, c: char): (i: nat)
    ensures i <= |s| && (forall j :: 0 <= j < i ==> s[j] != c) && (i < |s| ==> s[i] == c)
  {
    if s == "" || s[0] == c then 0 else 1 + IndexOf(s[1..], c)
  }

  /** The digits of the namespace and what follows the bar. */
  function Split(text: string): Option<(string, string)> {
    if !("NS" <= text) then None
    else
      var rest := text[2..];
      var bar := IndexOf(rest, '|');
      if bar == |rest| then None else Some((rest[..bar], rest[bar+1..]))
  }

  /** A reader of node id texts; the values of numbers are taken at the width that their fields have. */
  function Parse(text: string): Option<NodeId> {
    match Split(text)
    case None => None
    case Some((digits, body)) =>
      match ParseBody(body)
      case None => None
      case Some(id) => Some(NodeId(ValueOf(digits, 10) % 0x1_0000, id))
  }

  function ParseBody(s: string): Option<Identifier> {
    if "Numeric|" <= s then Some(Numeric(ValueOf(s[8..], 10) % 0x1_0000_0000))
    else if "String|" <= s then Some(String(s[7..]))
    else if "Opaque|0x" <= s then Some(Opaque(BytesOf(s[9..])))
    else if "Guid|" <= s && |s| == 41 then ParseGuid(s[5..])
    else None
  }

  function ParseGuid(s: string): Option<Identifier>
    requires |s| == 36
  {
    var data4 := BytesOf(s[19..23] + s[24..]);
    if |data4| != 8 || s[8] != '-' || s[13] != '-' || s[18] != '-' || s[23] != '-' then None
    else
      Some(Guid(ValueOf(s[..8], 16) % 0x1_0000_0000, ValueOf(s[9..13], 16) % 0x1_0000,
                ValueOf(s[14..18], 16) % 0x1_0000, data4))
  }

  /** Where the parts of a GUID and their separators stand in its text. */
  lemma GuidParts(id: Identifier)
    requires id.Guid?
    ensures var s := Body(id);
      && |s| == 41 && s[5..13] == Hex(8, id.data1) && s[14..18] == Hex(4, id.data2) && s[19..23] == Hex(4, id.data3)
      && s[24..28] == HexBytes(id.data4[..2]) && s[29..41] == HexBytes(id.data4[2..])
      && s[..5] == "Guid|" && s[13] == s[18] == s[23] == s[28] == '-'
  {
  }

  lemma {:induction false} HexBytesConcat(x: seq<Byte>, y: seq<Byte>)
    ensures HexBytes(x + y) == HexBytes(x) + HexBytes(y)
    decreases |y|
  {
    if y == [] {
      assert x + y == x;
    } else {
      var front, last := y[..|y|-1], y[|y|-1];
      assert x + y == (x + front) + [last] && y == front + [last];
      HexBytesUnfolds(x + front, last);
      HexBytesUnfolds(front, last);
      HexBytesConcat(x, front);
    }
  }

  lemma GuidValues(id: Identifier)
    requires id.Guid?
    ensures var s := Body(id);
      ValueOf(s[5..13], 16) == id.data1 && ValueOf(s[14..18], 16) == id.data2 && ValueOf(s[19..23], 16) == id.data3
  {
    GuidParts(id);
    Widths();
    HexReadsBack(8, id.data1);
    HexReadsBack(4, id.data2);
    HexReadsBack(4, id.data3);
  }

  lemma GuidBytes(id: Identifier)
    requires id.Guid?
    ensures BytesOf(Body(id)[24..28] + Body(id)[29..41]) == id.data4
  {
    GuidParts(id);
    HexBytesConcat(id.data4[..2], id.data4[2..]);
    assert id.data4 == id.data4[..2] + id.data4[2..];
    BytesReadBack(id.data4);
  }

  /** A text with the values of the GUID in their places. */
  lemma GuidAssembles(s: string, id: Identifier)
    requires id.Guid? && |s| == 41 && "Guid|" <= s && s[13] == s[18] == s[23] == s[28] == '-'
    requires ValueOf(s[5..13], 16) == id.data1
    requires ValueOf(s[14..18], 16) == id.data2 && ValueOf(s[19..23], 16) == id.data3
    requires BytesOf(s[24..28] + s[29..41]) == id.data4
    ensures ParseGuid(s[5..]) == Some(id)
  {
    var t := s[5..];
    assert t[..8] == s[5..13] && t[9..13] == s[14..18] && t[14..18] == s[19..23];
    assert t[19..23] == s[24..28] && t[24..] == s[29..41];
  }

  lemma GuidReadsBack(id: Identifier)
    requires id.Guid?
    ensures |Body(id)| == 41 && "Guid|" <= Body(id) && ParseGuid(Body(id)[5..]) == Some(id)
  {
    GuidParts(id);
    GuidValues(id);
    GuidBytes(id);
    GuidAssembles(Body(id), id);
  }

  lemma LabelSplits(prefix: string, rest: string)
    ensures prefix <= prefix + rest && (prefix + rest)[|prefix|..] == rest
  {
  }

  lemma OtherLabel(prefix: string, s: string)
    requires prefix != "" && s != "" && prefix[0] != s[0]
    ensures !(prefix <= s)
  {
  }

  lemma NumericParses(digits: string, n: UInt32)
    requires ValueOf(digits, 10) == n
    ensures ParseBody("Numeric|" + digits) == Some(Numeric(n))
  {
    LabelSplits("Numeric|", digits);
  }

  lemma StringReadsBack(shown: string)
    ensures ParseBody("String|" + shown) == Some(String(shown))
  {
    LabelSplits("String|", shown);
    OtherLabel("Numeric|", "String|" + shown);
  }

  lemma OpaqueReadsBack(bytes: seq<Byte>)
    ensures ParseBody("Opaque|0x" + HexBytes(bytes)) == Some(Opaque(bytes))
  {
    var s := "Opaque|0x" + HexBytes(bytes);
    LabelSplits("Opaque|0x", HexBytes(bytes));
    OtherLabel("Numeric|", s);
    OtherLabel("String|", s);
    BytesReadBack(bytes);
  }

  lemma BodyReadsBack(id: Identifier)
    ensures ParseBody(Body(id)) == Some(Visible(id))
  {
    match id
    case Numeric(n) =>
      DecimalReadsBack(n);
      NumericParses(Decimal(n), n);
    case String(text) => StringReadsBack(UpToNul(text));
    case Opaque(bytes) => OpaqueReadsBack(bytes);
    case Guid(_, _, _, _) =>
      GuidReadsBack(id);
      OtherLabel("Numeric|", Body(id));
      OtherLabel("String|", Body(id));
      OtherLabel("Opaque|0x", Body(id));
  }

  lemma BarIsFirst(digits: string, rest: string)
    requires forall i :: 0 <= i < |digits| ==> IsDigit(digits[i])
    ensures var s := digits + "|" + rest;
      IndexOf(s, '|') == |digits| && s[..|digits|] == digits && s[|digits|+1..] == rest
  {
    var s := digits + "|" + rest;
    assert s[|digits|] == '|';
    assert forall i :: 0 <= i < |digits| ==> s[i] == digits[i];
  }

  lemma HeaderSplits(prefix: string, digits: string, body: string)
    ensures var s := prefix + digits + "|" + body; prefix <= s && s[|prefix|..] == digits + "|" + body
  {
  }

  lemma TextSplits(digits: string, body: string)
    requires forall i :: 0 <= i < |digits| ==> IsDigit(digits[i])
    ensures Split("NS" + digits + "|" + body) == Some((digits, body))
  {
    HeaderSplits("NS", digits, body);
    BarIsFirst(digits, body);
  }

  lemma ParseAssembles(text: string, digits: string, ns: UInt16, body: string, id: Identifier)
    requires Split(text) == Some((digits, body)) && ValueOf(digits, 10) == ns && ParseBody(body) == Some(id)
    ensures Parse(text) == Some(NodeId(ns, id))
  {
  }

  /** The text reads back to the id, a string identifier up to its first NUL. */
  lemma TextReadsBack(id: NodeId)
    ensures Parse(FullText(id)) == Some(NodeId(id.ns, Visible(id.identifier)))
  {
    var digits, body := Decimal(id.ns), Body(id.identifier);
    BodyReadsBack(id.identifier);
    DecimalReadsBack(id.ns);
    TextSplits(digits, body);
    ParseAssembles(FullText(id), digits, id.ns, body, Visible(id.identifier));
  }

  lemma VisibleIsPrinted(a: Identifier, b: Identifier)
    requires Visible(a) == Visible(b)
    ensures Body(a) == Body(b)
  {
  }

  /** Two ids print alike exactly when namespace, kind and all before a NUL in a string identifier agree. */
  lemma TextIdentifies(a: NodeId, b: NodeId)
    ensures FullText(a) == FullText(b) <==> a.ns == b.ns && Visible(a.identifier) == Visible(b.identifier)
  {
    TextReadsBack(a);
    TextReadsBack(b);
    if Visible(a.identifier) == Visible(b.identifier) {
      VisibleIsPrinted(a.identifier, b.identifier);
    }
  }

  predicate HidesNothing(id: NodeId) {
    id.identifier.String? ==> NulFree(id.identifier.text)
  }

  /** On ids without NUL in a string identifier the text is as good as the id. */
  lemma TextIsInjective(a: NodeId, b: NodeId)
    requires HidesNothing(a) && HidesNothing(b)
    ensures FullText(a) == FullText(b) <==> a == b
  {
    TextIdentifies(a, b);
    if a.identifier.String? {
      NulFreeShowsAll(a.identifier.text);
    }
    if b.identifier.String? {
      NulFreeShowsAll(b.identifier.text);
    }
  }

  /** The whole text of one id. */
  lemma NumericExample()
    ensures FullText(NodeId(0, Numeric(85))) == "NS0|Numeric|85"
  {
    assert Decimal(85) == Decimal(8) + [Digit(5)];
  }

  /** Two ids that differ only behind a NUL print alike. */
  lemma NulHidesTheRest()
    ensures var a, b := NodeId(2, String("x\0y")), NodeId(2, String("x\0z")); a != b && FullText(a) == FullText(b)
  {
    assert UpToNul("x\0y") == ['x'] + UpToNul("\0y") && UpToNul("x\0z") == ['x'] + UpToNul("\0z");
    assert "x\0y"[2] != "x\0z"[2];
  }
}
