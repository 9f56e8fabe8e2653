/**
 * Percent-encoding of credentials, as `urllib.parse.quote(s, safe='')` does it:
 * the string is encoded as UTF-8, the bytes of the RFC 3986 section 2.3
 * unreserved set (ALPHA, DIGIT, "-", ".", "_", "~") stay literal and every
 * other byte becomes "%" followed by two upper-case hexadecimal digits
 * (RFC 3986 section 2.1).  `Unquote` is the strict percent-decoder a URL
 * reader applies to the user-information component; it inverts `Quote`.
 */
module PercentEncoding {
  import opened Wrappers
  import Utf8

  type Byte = Utf8.Byte

  const UpperHexDigits: string := "0123456789ABCDEF"

  /** The RFC 3986 unreserved characters; with `safe=''` nothing else is left literal. */
  predicate IsUnreservedChar(c: char) {
    || ('A' <= c <= 'Z')
    || ('a' <= c <= 'z')
    || ('0' <= c <= '9')
    || c == '-' || c == '.' || c == '_' || c == '~'
  }

  predicate IsUnreservedByte(b: Byte) {
    b < 0x80 && IsUnreservedChar(b as char)
  }

  /** One byte as it appears in the output of `quote`. */
  function QuoteByte(b: Byte): (s: string)
    ensures IsUnreservedByte(b) ==> s == [b as char]
    ensures !IsUnreservedByte(b) ==> |s| == 3 && s[0] == '%'
    ensures !IsUnreservedByte(b) ==> s[1] in UpperHexDigits && s[2] in UpperHexDigits
    ensures forall i :: 0 <= i < |s| ==> IsUnreservedChar(s[i]) || s[i] == '%'
  {
    if IsUnreservedByte(b) then [b as char]
    else ['%', UpperHexDigits[b / 16], UpperHexDigits[b % 16]]
  }

  /** `quote_from_bytes(bs, safe='')`. */
  function QuoteBytes(bs: seq<Byte>): (s: string)
    ensures |s| >= |bs|
    ensures forall i :: 0 <= i < |s| ==> IsUnreservedChar(s[i]) || s[i] == '%'
  {
    if bs == [] then "" else QuoteByte(bs[0]) + QuoteBytes(bs[1..])
  }

  /**
   * `quote(s, safe='')`: only unreserved characters and "%" appear in the
   * result, so in particular none of the delimiters "@", ":" and "/" that
   * would break the user-information component of a URL.
   */
  function Quote(s: string): (q: string)
    ensures '@' !in q && ':' !in q && '/' !in q
  {
    QuoteBytes(Utf8.Encode(s))
  }

  /** The value of a hexadecimal digit; RFC 3986 section 2.1 allows either case. */
  function HexValue(c: char): (v: Option<nat>)
    ensures v.Some? ==> v.value < 16
  {
    if '0' <= c <= '9' then Some(c as int - '0' as int)
    else if 'A' <= c <= 'F' then Some(c as int - 'A' as int + 10)
    else if 'a' <= c <= 'f' then Some(c as int - 'a' as int + 10)
    else None
  }

  /**
   * Strict percent-decoding to bytes: "%" must be followed by two hexadecimal
   * digits, any other character must be ASCII and stands for its own byte.
   */
  function PercentDecode(s: string): (r: Option<seq<Byte>>)
    decreases |s|
  {
    if s == [] then Some([])
    else if s[0] == '%' then
      if |s| < 3 then None
      else match (HexValue(s[1]), HexValue(s[2]))
        case (Some(hi), Some(lo)) =>
          (match PercentDecode(s[3..])
           case None => None
           case Some(rest) => Some([hi * 16 + lo] + rest))
        case _ => None
    else if (s[0] as int) < 0x80 then
      match PercentDecode(s[1..])
      case None => None
      case Some(rest) => Some([s[0] as int] + rest)
    else None
  }

  /** Percent-decoding followed by strict UTF-8 decoding. */
  function Unquote(s: string): (r: Option<string>)
  {
    match PercentDecode(s)
    case None => None
    case Some(bs) => Utf8.Decode(bs)
  }

  lemma HexDigitValue(n: nat)
    requires n < 16
    ensures HexValue(UpperHexDigits[n]) == Some(n)
  {
  }

  /** Decoding the front of `QuoteByte(b) + rest` yields `b` followed by the decoding of `rest`. */
  lemma PercentDecodeQuoteByte(b: Byte, rest: string)
    ensures PercentDecode(QuoteByte(b) + rest) ==
            match PercentDecode(rest)
            case None => None
            case Some(bs) => Some([b] + bs)
  {
    var s := QuoteByte(b) + rest;
    if IsUnreservedByte(b) {
      assert s[1..] == rest;
    } else {
      HexDigitValue(b / 16);
      HexDigitValue(b % 16);
      assert s[1] == UpperHexDigits[b / 16] && s[2] == UpperHexDigits[b % 16];
      assert s[3..] == rest;
    }
  }

  /** Round trip at the byte level: percent-decoding inverts `quote_from_bytes`. */
  lemma {:induction false} PercentDecodeQuoteBytes(bs: seq<Byte>)
    ensures PercentDecode(QuoteBytes(bs)) == Some(bs)
  {
    if bs != [] {
      PercentDecodeQuoteBytes(bs[1..]);
      PercentDecodeQuoteByte(bs[0], QuoteBytes(bs[1..]));
      assert [bs[0]] + bs[1..] == bs;
    }
  }

  /** Round trip: `Unquote(Quote(s))` recovers `s` exactly, whatever characters it holds. */
  lemma UnquoteQuote(s: string)
    ensures Unquote(Quote(s)) == Some(s)
  {
    PercentDecodeQuoteBytes(Utf8.Encode(s));
    Utf8.DecodeEncode(s);
  }

  /** A string made of unreserved characters only is left unchanged by `Quote`. */
  lemma QuoteUnreserved(s: string)
    requires forall i :: 0 <= i < |s| ==> IsUnreservedChar(s[i])
    ensures Quote(s) == s
  {
    Utf8.EncodeAscii(s);
    QuoteBytesAscii(Utf8.Encode(s), s);
  }

  lemma {:induction false} QuoteBytesAscii(bs: seq<Byte>, s: string)
    requires |bs| == |s|
    requires forall i :: 0 <= i < |s| ==> IsUnreservedChar(s[i]) && bs[i] == s[i] as int
    ensures QuoteBytes(bs) == s
  {
    if s != [] {
      QuoteBytesAscii(bs[1..], s[1..]);
      assert [s[0]] + s[1..] == s;
    }
  }
}
