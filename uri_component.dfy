/**
 * `encodeURIComponent`: every character outside the unreserved set
 * (ASCII letters and digits and `-_.!~*'()`) becomes the UTF-8 bytes of its
 * code point, each written `%XY` with upper-case hexadecimal digits, as
 * percent-encoding is defined in section 2.1 of RFC 3986. A percent-decoder
 * written independently of the encoder serves as its partner.
 */
module UriComponent {
  import opened Wrappers

  type Byte = b: int | 0 <= b < 256

  /** The characters `encodeURIComponent` leaves as they are. */
  predicate Unreserved(c: char) {
    || ('A' <= c <= 'Z') || ('a' <= c <= 'z') || ('0' <= c <= '9')
    || c == '-' || c == '_' || c == '.' || c == '!' || c == '~' || c == '*' || c == '\'' || c == '(' || c == ')'
  }

  /** The UTF-8 encoding of one code point: one to four bytes. */
  function Utf8(c: char): (r: seq<Byte>)
    ensures 1 <= |r| <= 4
  {
    var n := c as int;
    if n < 0x80 then [n]
    else if n < 0x800 then [0xC0 + n / 64, 0x80 + n % 64]
    else if n < 0x10000 then [0xE0 + n / 4096, 0x80 + (n / 64) % 64, 0x80 + n % 64]
    else [0xF0 + n / 0x40000, 0x80 + (n / 4096) % 64, 0x80 + (n / 64) % 64, 0x80 + n % 64]
  }

  /** An upper-case hexadecimal digit. */
  function HexDigit(d: int): (c: char)
    requires 0 <= d < 16
    ensures '0' <= c <= '9' || 'A' <= c <= 'F'
  {
    if d < 10 then ('0' as int + d) as char else ('A' as int + d - 10) as char
  }

  /** One byte written `%XY`. */
  function Percent(b: Byte): (r: string)
    ensures |r| == 3 && r[0] == '%'
  {
    ['%', HexDigit(b / 16), HexDigit(b % 16)]
  }

  function PercentAll(bs: seq<Byte>): (r: string)
    ensures |r| == 3 * |bs|
  {
    if bs == [] then [] else Percent(bs[0]) + PercentAll(bs[1..])
  }

  function EncodeChar(c: char): (r: string)
    ensures Unreserved(c) ==> r == [c]
    ensures !Unreserved(c) ==> 3 <= |r| && r[0] == '%'
  {
    if Unreserved(c) then [c] else PercentAll(Utf8(c))
  }

  /** `encodeURIComponent(s)`: only unreserved characters and `%` remain. */
  function Encode(s: string): (r: string)
    ensures forall i :: 0 <= i < |r| ==> Unreserved(r[i]) || r[i] == '%'
    ensures |r| >= |s|
  {
    if s == [] then []
    else
      var head := EncodeChar(s[0]);
      assert forall i :: 0 <= i < |head| ==> Unreserved(head[i]) || head[i] == '%' by {
        if !Unreserved(s[0]) { PercentAllCharset(Utf8(s[0])); }
      }
      head + Encode(s[1..])
  }

  lemma {:induction false} PercentAllCharset(bs: seq<Byte>)
    ensures forall i :: 0 <= i < |PercentAll(bs)| ==> Unreserved(PercentAll(bs)[i]) || PercentAll(bs)[i] == '%'
  {
    if bs != [] {
      PercentAllCharset(bs[1..]);
    }
  }

  /** A string is left unchanged exactly when all its characters are unreserved. */
  lemma {:induction false} EncodeIdentityIff(s: string)
    ensures Encode(s) == s <==> forall i :: 0 <= i < |s| ==> Unreserved(s[i])
  {
    if s != [] {
      EncodeIdentityIff(s[1..]);
      if Unreserved(s[0]) {
        assert Encode(s) == [s[0]] + Encode(s[1..]);
        if Encode(s) == s {
          assert Encode(s[1..]) == s[1..];
        }
        if forall i :: 0 <= i < |s| ==> Unreserved(s[i]) {
          assert forall i :: 0 <= i < |s[1..]| ==> Unreserved(s[1..][i]) by {
            forall i | 0 <= i < |s[1..]| ensures Unreserved(s[1..][i]) {
              assert s[1..][i] == s[i + 1];
            }
          }
        }
        if Encode(s[1..]) == s[1..] {
          assert s == [s[0]] + s[1..];
        }
      } else {
        assert |Encode(s)| >= 3 + |s[1..]| > |s|;
      }
    }
  }

  // ---------------------------------------------------------------- the decoder

  function HexValue(c: char): Option<int> {
    if '0' <= c <= '9' then Some(c as int - '0' as int)
    else if 'A' <= c <= 'F' then Some(c as int - 'A' as int + 10)
    else if 'a' <= c <= 'f' then Some(c as int - 'a' as int + 10)
    else None
  }

  /** The byte written `%XY` at the start of `s`, if one is. */
  function LeadingByte(s: string): (r: Option<Byte>)
    ensures r.Some? ==> |s| >= 3
  {
    if |s| >= 3 && s[0] == '%' && HexValue(s[1]).Some? && HexValue(s[2]).Some?
       && 0 <= HexValue(s[1]).value < 16 && 0 <= HexValue(s[2]).value < 16
    then Some(HexValue(s[1]).value * 16 + HexValue(s[2]).value)
    else None
  }

  /** `k` consecutive `%XY` bytes at the start of `s`. */
  function ReadBytes(s: string, k: nat): (r: Option<seq<Byte>>)
    ensures r.Some? ==> |r.value| == k && |s| >= 3 * k
  {
    if k == 0 then Some([])
    else
      var b := LeadingByte(s);
      if b.None? then None
      else
        var rest := ReadBytes(s[3..], k - 1);
        if rest.None? then None else Some([b.value] + rest.value)
  }

  /** The length of the UTF-8 sequence a lead byte starts; 0 for a byte that starts none. */
  function SequenceLength(lead: Byte): nat {
    if lead < 0x80 then 1
    else if 0xC0 <= lead < 0xE0 then 2
    else if 0xE0 <= lead < 0xF0 then 3
    else if 0xF0 <= lead < 0xF8 then 4
    else 0
  }

  predicate IsContinuation(b: Byte) { 0x80 <= b < 0xC0 }

  /** The code point a well-formed UTF-8 sequence of one to four bytes carries. */
  function CodePoint(bs: seq<Byte>): int
    requires 1 <= |bs| <= 4
  {
    var b: seq<int> := bs;
    if |b| == 1 then b[0]
    else if |b| == 2 then (b[0] - 0xC0) * 64 + (b[1] - 0x80)
    else if |b| == 3 then (b[0] - 0xE0) * 4096 + (b[1] - 0x80) * 64 + (b[2] - 0x80)
    else (b[0] - 0xF0) * 0x40000 + (b[1] - 0x80) * 4096 + (b[2] - 0x80) * 64 + (b[3] - 0x80)
  }

  predicate IsScalar(n: int) {
    (0 <= n < 0xD800) || (0xE000 <= n < 0x110000)
  }

  /** Percent-decoding: `%XY` runs are read as UTF-8, every other character stands for itself. */
  function Decode(s: string): Option<string>
    decreases |s|
  {
    if s == [] then Some([])
    else if s[0] != '%' then
      var rest := Decode(s[1..]);
      if rest.None? then None else Some([s[0]] + rest.value)
    else
      var lead := LeadingByte(s);
      if lead.None? then None
      else
        var n := SequenceLength(lead.value);
        if n == 0 then None
        else
          var bs := ReadBytes(s, n);
          if bs.None? || !(forall j :: 1 <= j < n ==> IsContinuation(bs.value[j])) then None
          else
            var cp := CodePoint(bs.value);
            if !IsScalar(cp) then None
            else
              var rest := Decode(s[3 * n..]);
              if rest.None? then None else Some([cp as char] + rest.value)
  }

  // ---------------------------------------------------------------- round trip

  lemma HexDigitValue(d: int)
    requires 0 <= d < 16
    ensures HexValue(HexDigit(d)) == Some(d)
  {
  }

  lemma PercentRead(b: Byte, rest: string)
    ensures LeadingByte(Percent(b) + rest) == Some(b)
  {
    HexDigitValue(b / 16);
    HexDigitValue(b % 16);
  }

  lemma {:induction false} PercentAllRead(bs: seq<Byte>, rest: string)
    ensures ReadBytes(PercentAll(bs) + rest, |bs|) == Some(bs)
  {
    if bs != [] {
      var s := PercentAll(bs) + rest;
      var tail := PercentAll(bs[1..]) + rest;
      assert s == Percent(bs[0]) + tail;
      PercentRead(bs[0], tail);
      assert s[3..] == tail;
      PercentAllRead(bs[1..], rest);
      assert ReadBytes(s, |bs|) == Some([bs[0]] + bs[1..]);
      assert [bs[0]] + bs[1..] == bs;
    }
  }

  /** The UTF-8 bytes of a code point decode back to it. */
  lemma Utf8Decodes(c: char)
    ensures SequenceLength(Utf8(c)[0]) == |Utf8(c)|
    ensures forall j :: 1 <= j < |Utf8(c)| ==> IsContinuation(Utf8(c)[j])
    ensures CodePoint(Utf8(c)) == c as int
  {
    var n := c as int;
    var q := n / 64;
    assert n == 64 * q + n % 64;
    if n >= 0x800 {
      assert q == 64 * (q / 64) + q % 64;
      assert n / 4096 == q / 64;
      if n >= 0x10000 {
        var p := q / 64;
        assert p == 64 * (p / 64) + p % 64;
        assert n / 0x40000 == p / 64;
        assert (n / 4096) % 64 == p % 64;
      }
    }
  }

  /** Decoding one percent-encoded character, then the rest. */
  lemma DecodeEncodedChar(c: char, rest: string)
    requires !Unreserved(c)
    ensures Decode(EncodeChar(c) + rest) ==
      (if Decode(rest).None? then None else Some([c] + Decode(rest).value))
  {
    var s := EncodeChar(c) + rest;
    var bs := Utf8(c);
    var n := |bs|;
    assert s == Percent(bs[0]) + (PercentAll(bs[1..]) + rest);
    PercentRead(bs[0], PercentAll(bs[1..]) + rest);
    Utf8Decodes(c);
    assert SequenceLength(LeadingByte(s).value) == n;
    PercentAllRead(bs, rest);
    assert ReadBytes(s, n) == Some(bs);
    assert IsScalar(CodePoint(bs));
    assert s[3 * n..] == rest;
    assert (c as int) as char == c;
  }

  /** Decoding one encoded character, then the rest. */
  lemma DecodeChar(c: char, rest: string)
    ensures Decode(EncodeChar(c) + rest) ==
      (if Decode(rest).None? then None else Some([c] + Decode(rest).value))
  {
    if Unreserved(c) {
      var s := EncodeChar(c) + rest;
      assert s[1..] == rest;
    } else {
      DecodeEncodedChar(c, rest);
    }
  }

  /** `encodeURIComponent` loses nothing: decoding its output gives back the input. */
  lemma {:induction false} DecodeEncode(s: string)
    ensures Decode(Encode(s)) == Some(s)
  {
    if s != [] {
      DecodeEncode(s[1..]);
      DecodeChar(s[0], Encode(s[1..]));
      assert [s[0]] + s[1..] == s;
    }
  }

  /** Distinct strings encode differently. */
  lemma EncodeInjective(s: string, t: string)
    requires Encode(s) == Encode(t)
    ensures s == t
  {
    DecodeEncode(s);
    DecodeEncode(t);
  }
}
