/** Percent-encoding as `EncodeUrl` and `DecodeUrl` do it, byte by byte. */
module UrlCodec {
  import opened Basics

  type Byte = b: int | 0 <= b < 256 witness 0

  predicate IsDigit(b: Byte) {
    '0' as int <= b <= '9' as int
  }

  predicate IsAlnum(b: Byte) {
    IsDigit(b) || 'A' as int <= b <= 'Z' as int || 'a' as int <= b <= 'z' as int
  }

  /** Unreserved characters of section 2.3 of RFC 3986. */
  predicate Unreserved(b: Byte) {
    IsAlnum(b) || b == '-' as int || b == '_' as int || b == '.' as int || b == '~' as int
  }

  function HexDigit(n: int): Byte
    requires 0 <= n < 16
  {
    if n < 10 then '0' as int + n else 'A' as int + n - 10
  }

  function HexValue(b: Byte): Option<int> {
    if IsDigit(b) then Some(b - '0' as int)
    else if 'A' as int <= b <= 'F' as int then Some(b - 'A' as int + 10)
    else if 'a' as int <= b <= 'f' as int then Some(b - 'a' as int + 10)
    else None
  }

  predicate IsSpace(b: Byte) {
    b == 32 || 9 <= b <= 13
  }

  /**
    Extraction of a hexadecimal int from the two characters after '%', with the rules of the
    formatted stream extraction: leading white space is skipped, a sign is read, extraction stops
    at the first character that is not a digit, and "0x" alone is no number.
  */
  function ReadHex(a: Byte, b: Byte): Option<int> {
    if HexValue(a).Some? && HexValue(b).Some? then Some(16 * HexValue(a).value + HexValue(b).value)
    else if HexValue(a).Some? then
      (if a == '0' as int && (b == 'x' as int || b == 'X' as int) then None else HexValue(a))
    else if (IsSpace(a) || a == '+' as int) && HexValue(b).Some? then HexValue(b)
    else if a == '-' as int && HexValue(b).Some? then Some(-HexValue(b).value)
    else None
  }

  /** Conversion of an int to a `char`. */
  function ToByte(n: int): Byte {
    n % 256
  }

  function EncodeByte(b: Byte): seq<Byte> {
    if Unreserved(b) then [b] else ['%' as int, HexDigit(b / 16), HexDigit(b % 16)]
  }

  function Encode(s: seq<Byte>): seq<Byte> {
    if s == [] then [] else EncodeByte(s[0]) + Encode(s[1..])
  }

  function Decode(s: seq<Byte>): Option<seq<Byte>> {
    if s == [] then Some([])
    else if s[0] == '%' as int then
      if |s| < 3 || ReadHex(s[1], s[2]).None? then None
      else Prefix(ToByte(ReadHex(s[1], s[2]).value), Decode(s[3..]))
    else Prefix(if s[0] == '+' as int then ' ' as int else s[0], Decode(s[1..]))
  }

  function Prefix(b: Byte, rest: Option<seq<Byte>>): Option<seq<Byte>> {
    if rest.None? then None else Some([b] + rest.value)
  }

  method EncodeUrl(url: seq<Byte>) returns (out: seq<Byte>)
    ensures out == Encode(url)
  {
    out := [];
    var i := 0;
    while i < |url|
      invariant 0 <= i <= |url| && out + Encode(url[i..]) == Encode(url)
    {
      var c := url[i];
      EncodeFrom(url, i, out);
      if IsAlnum(c) || c == '-' as int || c == '_' as int || c == '.' as int || c == '~' as int {
        out := out + [c];
      } else {
        out := out + ['%' as int, HexDigit(c / 16), HexDigit(c % 16)];
      }
      i := i + 1;
    }
  }

  lemma EncodeFrom(url: seq<Byte>, i: nat, out: seq<Byte>)
    requires i < |url|
    ensures out + Encode(url[i..]) == (out + EncodeByte(url[i])) + Encode(url[i + 1..])
  {
    assert url[i..][1..] == url[i + 1..];
    Associate(out, EncodeByte(url[i]), Encode(url[i + 1..]));
  }

  /** None stands for the exceptions "failed to recognize the char" and "bad encoding". */
  method DecodeUrl(url: seq<Byte>) returns (out: Option<seq<Byte>>)
    ensures out == Decode(url)
  {
    var done: seq<Byte> := [];
    var i := 0;
    Start(Decode(url));
    assert url[0..] == url;
    while i < |url|
      invariant 0 <= i <= |url| && Decode(url) == Append(done, Decode(url[i..]))
    {
      DecodeFrom(url, i, done);
      if url[i] == '%' as int {
        if i + 3 <= |url| {
          var value := ReadHex(url[i + 1], url[i + 2]);
          if value.None? {
            return None;
          }
          done := done + [ToByte(value.value)];
          i := i + 2;
        } else {
          return None;
        }
      } else if url[i] == '+' as int {
        done := done + [' ' as int];
      } else {
        done := done + [url[i]];
      }
      i := i + 1;
    }
    assert done + [] == done;
    return Some(done);
  }

  lemma Start(rest: Option<seq<Byte>>)
    ensures Append([], rest) == rest
  {
    if rest.Some? {
      assert [] + rest.value == rest.value;
    }
  }

  /** One round of the decoder's loop. */
  lemma DecodeFrom(url: seq<Byte>, i: nat, done: seq<Byte>)
    requires i < |url|
    ensures Append(done, Decode(url[i..])) ==
            if url[i] == '%' as int then
              if i + 3 > |url| || ReadHex(url[i + 1], url[i + 2]).None? then None
              else Append(done + [ToByte(ReadHex(url[i + 1], url[i + 2]).value)], Decode(url[i + 3..]))
            else Append(done + [if url[i] == '+' as int then ' ' as int else url[i]], Decode(url[i + 1..]))
  {
    var s := url[i..];
    if url[i] == '%' as int {
      if i + 3 <= |url| && ReadHex(url[i + 1], url[i + 2]).Some? {
        assert s[3..] == url[i + 3..];
        PrefixAppend(done, ToByte(ReadHex(url[i + 1], url[i + 2]).value), Decode(url[i + 3..]));
      }
    } else {
      assert s[1..] == url[i + 1..];
      PrefixAppend(done, if url[i] == '+' as int then ' ' as int else url[i], Decode(url[i + 1..]));
    }
  }

  lemma PrefixAppend(done: seq<Byte>, b: Byte, rest: Option<seq<Byte>>)
    ensures Append(done, Prefix(b, rest)) == Append(done + [b], rest)
  {
    if rest.Some? {
      Associate(done, [b], rest.value);
    }
  }

  function Append(done: seq<Byte>, rest: Option<seq<Byte>>): Option<seq<Byte>> {
    if rest.None? then None else Some(done + rest.value)
  }

  // ---------------------------------------------------------------- results

  lemma HexReadsBack(n: int)
    requires 0 <= n < 16
    ensures HexValue(HexDigit(n)) == Some(n)
  {
  }

  lemma HexPair(b: Byte)
    ensures ReadHex(HexDigit(b / 16), HexDigit(b % 16)) == Some(b) && ToByte(b) == b
  {
    HexReadsBack(b / 16);
    HexReadsBack(b % 16);
  }

  lemma DecodeTriplet(high: Byte, low: Byte, b: Byte, rest: seq<Byte>)
    requires ReadHex(high, low) == Some(b) && ToByte(b) == b
    ensures Decode(['%' as int, high, low] + rest) == Prefix(b, Decode(rest))
  {
    var s: seq<Byte> := ['%' as int, high, low] + rest;
    assert s[3..] == rest && s[0] == '%' as int && s[1] == high && s[2] == low;
  }

  lemma DecodePlain(b: Byte, rest: seq<Byte>)
    requires Unreserved(b)
    ensures Decode([b] + rest) == Prefix(b, Decode(rest))
  {
    assert ([b] + rest)[1..] == rest;
  }

  lemma DecodeByte(b: Byte, rest: seq<Byte>)
    ensures Decode(EncodeByte(b) + rest) == Prefix(b, Decode(rest))
  {
    if Unreserved(b) {
      DecodePlain(b, rest);
    } else {
      HexPair(b);
      DecodeTriplet(HexDigit(b / 16), HexDigit(b % 16), b, rest);
    }
  }

  /** The character is the hexadecimal digit d, in either case. */
  predicate IsHexOf(c: Byte, d: int) {
    if 0 <= d < 10 then c == '0' as int + d
    else 10 <= d < 16 && (c == 'A' as int + d - 10 || c == 'a' as int + d - 10)
  }

  /** A triplet stands for its byte whichever case its digits have, and '+' for a space. */
  lemma TripletAnyCase(b: Byte, high: Byte, low: Byte, rest: seq<Byte>)
    requires IsHexOf(high, b / 16) && IsHexOf(low, b % 16)
    ensures Decode(['%' as int, high, low] + rest) == if Decode(rest).None? then None else Some([b] + Decode(rest).value)
    ensures Decode(['+' as int] + rest) == if Decode(rest).None? then None else Some([' ' as int] + Decode(rest).value)
  {
    assert ReadHex(high, low) == Some(b) && ToByte(b) == b;
    DecodeTriplet(high, low, b, rest);
    assert (['+' as int] + rest)[1..] == rest;
  }

  /** Any other character but '%' stands for itself, and a '%' with fewer than two characters after it is an error. */
  lemma PlainAndCut(b: Byte, rest: seq<Byte>)
    ensures b != '%' as int && b != '+' as int ==>
              Decode([b] + rest) == if Decode(rest).None? then None else Some([b] + Decode(rest).value)
    ensures |rest| < 2 ==> Decode(['%' as int] + rest) == None
  {
    assert ([b] + rest)[1..] == rest;
  }

  /** Decoding undoes encoding, for every byte string. */
  lemma {:induction false} RoundTrip(s: seq<Byte>)
    ensures Decode(Encode(s)) == Some(s)
  {
    if s != [] {
      RoundTrip(s[1..]);
      DecodeByte(s[0], Encode(s[1..]));
      assert s == [s[0]] + s[1..];
    }
  }

  predicate UpperHex(b: Byte) {
    IsDigit(b) || 'A' as int <= b <= 'F' as int
  }

  /** Unreserved characters and '%' triplets with two hexadecimal digits (sections 2.1 and 2.3 of RFC 3986). */
  predicate WellEncoded(s: seq<Byte>) {
    s == [] ||
    (Unreserved(s[0]) && WellEncoded(s[1..])) ||
    (|s| >= 3 && s[0] == '%' as int && UpperHex(s[1]) && UpperHex(s[2]) && WellEncoded(s[3..]))
  }

  lemma {:induction false} EncodingIsWellFormed(s: seq<Byte>)
    ensures WellEncoded(Encode(s))
  {
    if s != [] {
      EncodingIsWellFormed(s[1..]);
      var e, rest := EncodeByte(s[0]), Encode(s[1..]);
      if Unreserved(s[0]) {
        assert Encode(s)[1..] == rest;
      } else {
        assert Encode(s)[3..] == rest && Encode(s)[1] == e[1] && Encode(s)[2] == e[2];
      }
    }
  }

  predicate IsHexDigit(c: Byte) {
    '0' as int <= c <= '9' as int || 'A' as int <= c <= 'F' as int || 'a' as int <= c <= 'f' as int
  }

  /**
    What else the stream extraction takes: a digit and a character that is none gives the digit,
    except for "0x"; white space or a sign before a digit is skipped or applied; anything else is an
    error.
  */
  lemma LooseTriplets(d: int, a: Byte, b: Byte, rest: seq<Byte>)
    requires 0 <= d < 16
    ensures IsHexOf(a, d) && !IsHexDigit(b) && !(d == 0 && b in {'x' as int, 'X' as int}) ==>
              Decode(['%' as int, a, b] + rest) == Prefix(d, Decode(rest))
    ensures a == '0' as int && b in {'x' as int, 'X' as int} ==> Decode(['%' as int, a, b] + rest) == None
    ensures (a in {' ' as int, 9, 10, 11, 12, 13, '+' as int}) && IsHexOf(b, d) ==>
              Decode(['%' as int, a, b] + rest) == Prefix(d, Decode(rest))
    ensures a == '-' as int && IsHexOf(b, d) && d > 0 ==> Decode(['%' as int, a, b] + rest) == Prefix(256 - d, Decode(rest))
    ensures !IsHexDigit(a) && !IsHexDigit(b) ==> Decode(['%' as int, a, b] + rest) == None
    ensures !IsHexDigit(a) && a !in {' ' as int, 9, 10, 11, 12, 13, '+' as int, '-' as int} ==> Decode(['%' as int, a, b] + rest) == None
  {
    var s: seq<Byte> := ['%' as int, a, b] + rest;
    assert s[3..] == rest && s[0] == '%' as int && s[1] == a && s[2] == b;
  }
}
