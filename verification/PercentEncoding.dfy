/**
 * `encodeURIComponent` and `decodeURIComponent`: percent-encoding (section 2.1 of RFC 3986) of the UTF-8
 * octets (section 3 of RFC 3629) of each character.
 */
module PercentEncoding {

  import opened Wrappers

  type Octet = n: int | 0 <= n < 256

  predicate Unreserved(c: char)
  {
    'A' <= c <= 'Z' || 'a' <= c <= 'z' || '0' <= c <= '9' || c in "-_.!~*'()"
  }

  // --- UTF-8 ---------------------------------------------------------------------------------------

  function Utf8(c: char): (octets: seq<Octet>)
    ensures 1 <= |octets| <= 4 && |octets| == SequenceLength(octets[0])
  {
    var n := c as int;
    if n < 0x80 then [n]
    else if n < 0x800 then [0xC0 + n / 0x40, 0x80 + n % 0x40]
    else if n < 0x1_0000 then [0xE0 + n / 0x1000, 0x80 + n / 0x40 % 0x40, 0x80 + n % 0x40]
    else [0xF0 + n / 0x4_0000, 0x80 + n / 0x1000 % 0x40, 0x80 + n / 0x40 % 0x40, 0x80 + n % 0x40]
  }

  /** How many octets the first one announces; 0 if it cannot come first. */
  function SequenceLength(lead: Octet): nat
  {
    if lead < 0x80 then 1
    else if 0xC0 <= lead < 0xE0 then 2
    else if 0xE0 <= lead < 0xF0 then 3
    else if 0xF0 <= lead < 0xF8 then 4
    else 0
  }

  predicate Continues(octet: Octet)
  {
    0x80 <= octet < 0xC0
  }

  function Low(octet: Octet): int
  {
    octet as int - 0x80
  }

  /** The number in `octets`, with the least one that needs that many octets. */
  function Payload(octets: seq<Octet>): (int, int)
    requires |octets| > 0 && |octets| == SequenceLength(octets[0])
  {
    var lead := octets[0] as int;
    match |octets|
    case 1 => (lead, 0)
    case 2 => ((lead - 0xC0) * 0x40 + Low(octets[1]), 0x80)
    case 3 => ((lead - 0xE0) * 0x1000 + Low(octets[1]) * 0x40 + Low(octets[2]), 0x800)
    case _ =>
      ((lead - 0xF0) * 0x4_0000 + Low(octets[1]) * 0x1000 + Low(octets[2]) * 0x40 + Low(octets[3]), 0x1_0000)
  }

  /** Overlong forms, surrogates and numbers past the last character are refused. */
  function Scalar(octets: seq<Octet>): Option<char>
    requires |octets| > 0 && |octets| == SequenceLength(octets[0])
  {
    var (n, least) := Payload(octets);
    if (forall i :: 1 <= i < |octets| ==> Continues(octets[i])) && least <= n && (n < 0xD800 || 0xE000 <= n < 0x11_0000)
    then Some(n as char)
    else None
  }

  /** The decoder reads a character from exactly the octets the encoder writes for it. */
  lemma ScalarIff(octets: seq<Octet>, c: char)
    requires |octets| > 0 && |octets| == SequenceLength(octets[0])
    ensures Scalar(octets) == Some(c) <==> octets == Utf8(c)
  {
    if octets == Utf8(c) {
      ScalarOfUtf8(c);
    } else if Scalar(octets) == Some(c) {
      Utf8OfScalar(octets, c);
    }
  }

  lemma ScalarOfUtf8(c: char)
    ensures Scalar(Utf8(c)) == Some(c)
  {
    var n, octets := c as int, Utf8(c);
    assert n / 0x1000 == n / 0x40 / 0x40 && n / 0x4_0000 == n / 0x40 / 0x40 / 0x40;
    assert Payload(octets).0 == n;
    assert forall i :: 1 <= i < |octets| ==> Continues(octets[i]);
  }

  /** Division by 0x40 takes the last six bits off again. */
  lemma Digits(high: int, low: int)
    requires 0 <= low < 0x40
    ensures (high * 0x40 + low) / 0x40 == high && (high * 0x40 + low) % 0x40 == low
  {
  }

  lemma ThreeDigits(high: int, middle: int, low: int)
    requires 0 <= middle < 0x40 && 0 <= low < 0x40
    ensures var n := high * 0x1000 + middle * 0x40 + low;
            n / 0x1000 == high && n / 0x40 % 0x40 == middle && n % 0x40 == low
  {
    Digits(high * 0x40 + middle, low);
    Digits(high, middle);
  }

  lemma FourDigits(top: int, high: int, middle: int, low: int)
    requires 0 <= high < 0x40 && 0 <= middle < 0x40 && 0 <= low < 0x40
    ensures var n := top * 0x4_0000 + high * 0x1000 + middle * 0x40 + low;
            n / 0x4_0000 == top && n / 0x1000 % 0x40 == high && n / 0x40 % 0x40 == middle && n % 0x40 == low
  {
    ThreeDigits(top * 0x40 + high, middle, low);
    Digits(top, high);
    var n := top * 0x4_0000 + high * 0x1000 + middle * 0x40 + low;
    assert n / 0x4_0000 == n / 0x1000 / 0x40;
  }

  lemma Utf8OfScalar(octets: seq<Octet>, c: char)
    requires |octets| > 0 && |octets| == SequenceLength(octets[0]) && Scalar(octets) == Some(c)
    ensures octets == Utf8(c)
  {
    var lead := octets[0] as int;
    assert forall i :: 1 <= i < |octets| ==> Continues(octets[i]);
    match |octets|
    case 1 =>
    case 2 => Digits(lead - 0xC0, Low(octets[1]));
    case 3 => ThreeDigits(lead - 0xE0, Low(octets[1]), Low(octets[2]));
    case 4 => FourDigits(lead - 0xF0, Low(octets[1]), Low(octets[2]), Low(octets[3]));
  }

  // --- Escapes -------------------------------------------------------------------------------------

  function HexDigit(n: int): char
    requires 0 <= n < 16
  {
    "0123456789ABCDEF"[n]
  }

  function HexValue(c: char): Option<int>
  {
    if '0' <= c <= '9' then Some(c as int - '0' as int)
    else if 'A' <= c <= 'F' then Some(c as int - 'A' as int + 10)
    else if 'a' <= c <= 'f' then Some(c as int - 'a' as int + 10)
    else None
  }

  lemma HexRoundTrip(n: int)
    requires 0 <= n < 16
    ensures HexValue(HexDigit(n)) == Some(n)
  {
  }

  function Escape(octet: Octet): (s: string)
    ensures |s| == 3
  {
    ['%', HexDigit(octet / 16), HexDigit(octet % 16)]
  }

  function Escapes(octets: seq<Octet>): (s: string)
    ensures |s| == 3 * |octets|
  {
    if octets == [] then "" else Escape(octets[0]) + Escapes(octets[1..])
  }

  /** The octet of the escape that `s` starts with. */
  function OctetAt(s: string): Option<Octet>
  {
    if |s| < 3 || s[0] != '%' || HexValue(s[1]).None? || HexValue(s[2]).None? then None
    else Some(HexValue(s[1]).value * 16 + HexValue(s[2]).value)
  }

  /** The octets of the first `n` escapes of `s`, if it starts with so many. */
  function Unescape(s: string, n: nat): (octets: Option<seq<Octet>>)
    ensures octets.Some? ==> |octets.value| == n && 3 * n <= |s|
    ensures octets.Some? && n > 0 ==> OctetAt(s) == Some(octets.value[0])
  {
    if n == 0 then Some([])
    else if OctetAt(s).None? then None
    else
      var rest := Unescape(s[3..], n - 1);
      if rest.None? then None else Some([OctetAt(s).value] + rest.value)
  }

  lemma OctetOfEscape(octet: Octet, rest: string)
    ensures OctetAt(Escape(octet) + rest) == Some(octet)
  {
    HexRoundTrip(octet / 16);
    HexRoundTrip(octet % 16);
  }

  lemma {:induction false} UnescapeRoundTrip(octets: seq<Octet>, rest: string)
    ensures Unescape(Escapes(octets) + rest, |octets|) == Some(octets)
  {
    if octets != [] {
      var first, tail := octets[0], Escapes(octets[1..]) + rest;
      assert Escapes(octets) + rest == Escape(first) + tail;
      OctetOfEscape(first, tail);
      assert (Escape(first) + tail)[3..] == tail;
      UnescapeRoundTrip(octets[1..], rest);
      assert [first] + octets[1..] == octets;
    }
  }

  // --- Whole strings -------------------------------------------------------------------------------

  function EncodeChar(c: char): (s: string)
    ensures |s| > 0
  {
    if Unreserved(c) then [c] else Escapes(Utf8(c))
  }

  function Encode(s: string): string
  {
    if s == "" then "" else EncodeChar(s[0]) + Encode(s[1..])
  }

  /** The first character, and how many characters it was written with. */
  function DecodeChar(s: string): (result: Option<(char, nat)>)
    requires s != ""
    ensures result.Some? ==> 0 < result.value.1 <= |s|
  {
    if s[0] != '%' then Some((s[0], 1))
    else
      var lead := OctetAt(s);
      if lead.None? || SequenceLength(lead.value) == 0 then None
      else
        var octets := Unescape(s, SequenceLength(lead.value));
        if octets.None? || Scalar(octets.value).None? then None
        else Some((Scalar(octets.value).value, 3 * |octets.value|))
  }

  /** None where the source throws. */
  function Decode(s: string): Option<string>
  {
    if s == "" then Some("")
    else
      var first := DecodeChar(s);
      if first.None? then None
      else
        var rest := Decode(s[first.value.1..]);
        if rest.None? then None else Some([first.value.0] + rest.value)
  }

  lemma DecodeEncodedChar(c: char, rest: string)
    ensures DecodeChar(EncodeChar(c) + rest) == Some((c, |EncodeChar(c)|))
  {
    if !Unreserved(c) {
      var octets := Utf8(c);
      UnescapeRoundTrip(octets, rest);
      ScalarIff(octets, c);
    }
  }

  /** Decoding undoes encoding, for every string. */
  lemma {:induction false} DecodeUndoesEncode(s: string)
    ensures Decode(Encode(s)) == Some(s)
  {
    if s != "" {
      var first, rest := EncodeChar(s[0]), Encode(s[1..]);
      DecodeEncodedChar(s[0], rest);
      assert (first + rest)[|first|..] == rest;
      DecodeUndoesEncode(s[1..]);
      assert [s[0]] + s[1..] == s;
    }
  }

  /** Nothing written by the encoder needs escaping in a URI component. */
  predicate Safe(c: char)
  {
    Unreserved(c) || c == '%'
  }

  lemma {:induction false} EscapesAreSafe(octets: seq<Octet>)
    ensures forall c :: c in Escapes(octets) ==> Safe(c)
  {
    if octets != [] {
      EscapesAreSafe(octets[1..]);
    }
  }

  lemma {:induction false} EncodedIsSafe(s: string)
    ensures forall c :: c in Encode(s) ==> Safe(c)
  {
    if s != "" {
      EscapesAreSafe(Utf8(s[0]));
      EncodedIsSafe(s[1..]);
    }
  }

  /** The characters left alone, by their codes: digits, letters and nine marks. */
  lemma UnescapedAre(c: char)
    ensures EncodeChar(c) == [c] <==>
            var n := c as int;
            0x30 <= n <= 0x39 || 0x41 <= n <= 0x5A || 0x61 <= n <= 0x7A ||
            n in {0x21, 0x27, 0x28, 0x29, 0x2A, 0x2D, 0x2E, 0x5F, 0x7E}
  {
    var marks := "-_.!~*'()";
    assert c in marks <==> exists i :: 0 <= i < 9 && marks[i] == c;
  }

  lemma EscapesOf(first: Octet, rest: seq<Octet>)
    ensures Escapes([first] + rest) == ['%', HexDigit(first / 16), HexDigit(first % 16)] + Escapes(rest)
  {
    assert ([first] + rest)[1..] == rest;
  }

  /** The escapes of one octet, written out. */
  lemma LastEscape(last: Octet)
    ensures Escapes([last]) == ['%', HexDigit(last / 16), HexDigit(last % 16)]
  {
    assert [last] + [] == [last];
    EscapesOf(last, []);
    assert Escapes([]) == "";
    var escape := ['%', HexDigit(last / 16), HexDigit(last % 16)];
    assert escape + "" == escape;
  }

  /** A character of one octet and a character of two. */
  lemma ShortCharacters()
    ensures EncodeChar(' ') == "%20"
    ensures EncodeChar('\U{E9}') == "%C3%A9"
  {
    hide Escapes;
    assert Utf8(' ') == [0x20];
    LastEscape(0x20);
    assert Utf8('\U{E9}') == [0xC3] + [0xA9];
    EscapesOf(0xC3, [0xA9]);
    LastEscape(0xA9);
  }

  /** A character of three octets. */
  lemma ThreeOctetCharacter()
    ensures EncodeChar('\U{20AC}') == "%E2%82%AC"
  {
    hide Escapes;
    assert Utf8('\U{20AC}') == [0xE2] + ([0x82] + [0xAC]);
    EscapesOf(0xE2, [0x82] + [0xAC]);
    EscapesOf(0x82, [0xAC]);
    LastEscape(0xAC);
  }

  /** A character of four octets. */
  lemma FourOctetCharacter()
    ensures EncodeChar('\U{1F600}') == "%F0%9F%98%80"
  {
    hide Escapes;
    assert Utf8('\U{1F600}') == [0xF0] + ([0x9F] + ([0x98] + [0x80]));
    EscapesOf(0xF0, [0x9F] + ([0x98] + [0x80]));
    EscapesOf(0x9F, [0x98] + [0x80]);
    EscapesOf(0x98, [0x80]);
    LastEscape(0x80);
  }

  /** A character other than `%` stands for itself. */
  lemma PlainIsDecoded(c: char, rest: string)
    ensures c != '%' ==>
              Decode([c] + rest) == if Decode(rest).None? then None else Some([c] + Decode(rest).value)
  {
    assert ([c] + rest)[1..] == rest;
  }

  /**
   * A `%` that does not start the octets of a character, written in hex digits of either case, is not decoded;
   * one that does stands for that character.
   */
  lemma EscapeIsDecoded(s: string)
    requires s != "" && s[0] == '%'
    ensures DecodeChar(s).Some? ==>
              var (c, length) := DecodeChar(s).value;
              length == 3 * |Utf8(c)| && Unescape(s, |Utf8(c)|) == Some(Utf8(c))
    ensures forall c :: Unescape(s, |Utf8(c)|) == Some(Utf8(c)) ==> DecodeChar(s) == Some((c, 3 * |Utf8(c)|))
  {
    hide Utf8, Scalar, SequenceLength, OctetAt;
    if DecodeChar(s).Some? {
      var (c, length) := DecodeChar(s).value;
      var octets := Unescape(s, SequenceLength(OctetAt(s).value)).value;
      ScalarIff(octets, c);
    }
    forall c | Unescape(s, |Utf8(c)|) == Some(Utf8(c)) ensures DecodeChar(s) == Some((c, 3 * |Utf8(c)|)) {
      ScalarIff(Utf8(c), c);
    }
  }

  /** Hex digits count from 0 to 15, in either case. */
  lemma HexValues(n: int)
    requires 0 <= n < 16
    ensures HexDigit(n) == "0123456789ABCDEF"[n]
    ensures HexValue("0123456789ABCDEF"[n]) == Some(n) && HexValue("0123456789abcdef"[n]) == Some(n)
  {
  }
}
