/**
 JavaScript's `encodeURIComponent` (section 19.2.6.5 of ECMA-262) over Unicode
 scalar values, and the matching `decodeURIComponent` as its inverse. Every
 character outside the unreserved set is written as the `%XX` escapes of its UTF-8
 bytes, with upper-case hex digits.
 */
module UriComponent {
  import opened Text
  import opened Options

  type Byte = b: int | 0 <= b < 256

  /** The characters `encodeURIComponent` leaves as they are. */
  predicate Unreserved(c: char) {
    IsAlnum(c) || c in "-_.!~*'()"
  }

  // ---------------------------------------------------------------------------
  // UTF-8
  // ---------------------------------------------------------------------------

  /** The UTF-8 bytes of a code point. */
  function Utf8(c: char): (bs: seq<Byte>)
    ensures 1 <= |bs| <= 4
    ensures |bs| == 1 <==> c as int < 0x80
  {
    var n := c as int;
    if n < 0x80 then [n]
    else if n < 0x800 then [0xC0 + n / 64, 0x80 + n % 64]
    else if n < 0x10000 then [0xE0 + n / 4096, 0x80 + (n / 64) % 64, 0x80 + n % 64]
    else [0xF0 + n / 262144, 0x80 + (n / 4096) % 64, 0x80 + (n / 64) % 64, 0x80 + n % 64]
  }

  /** The length of the UTF-8 sequence a lead byte announces; 0 for a byte that cannot lead. */
  function Utf8Length(b: Byte): (n: nat)
    ensures n <= 4
  {
    if b < 0x80 then 1
    else if 0xC0 <= b < 0xE0 then 2
    else if 0xE0 <= b < 0xF0 then 3
    else if 0xF0 <= b < 0xF8 then 4
    else 0
  }

  predicate IsContinuation(b: Byte) {
    0x80 <= b < 0xC0
  }

  /** Valid Unicode scalar values: below 0x110000 and outside the surrogate block. */
  predicate IsScalar(n: int) {
    (0 <= n < 0xD800) || (0xE000 <= n < 0x110000)
  }

  /**
   One complete UTF-8 sequence to its code point; `None` for a bad lead or continuation
   byte, an overlong form, a surrogate, or a value above 0x10FFFF.
   */
  function Utf8Decode(bs: seq<Byte>): Option<char> {
    if |bs| == 0 || Utf8Length(bs[0]) != |bs| then None
    else if exists k :: 1 <= k < |bs| && !IsContinuation(bs[k]) then None
    else
      var n := Utf8Value(bs);
      var least: int := if |bs| == 1 then 0 else if |bs| == 2 then 0x80 else if |bs| == 3 then 0x800 else 0x10000;
      if least <= n && IsScalar(n) then Some(n as char) else None
  }

  /** The code point bits of a sequence whose bytes have the right shape. */
  function Utf8Value(bs: seq<Byte>): int
    requires 1 <= |bs| <= 4
  {
    var b := seq(|bs|, i requires 0 <= i < |bs| => bs[i] as int);
    if |b| == 1 then b[0]
    else if |b| == 2 then (b[0] - 0xC0) * 64 + (b[1] - 0x80)
    else if |b| == 3 then ((b[0] - 0xE0) * 64 + (b[1] - 0x80)) * 64 + (b[2] - 0x80)
    else (((b[0] - 0xF0) * 64 + (b[1] - 0x80)) * 64 + (b[2] - 0x80)) * 64 + (b[3] - 0x80)
  }

  lemma Utf8Decodes(c: char)
    ensures Utf8Length(Utf8(c)[0]) == |Utf8(c)|
    ensures forall k :: 1 <= k < |Utf8(c)| ==> IsContinuation(Utf8(c)[k])
    ensures Utf8Decode(Utf8(c)) == Some(c)
  {
    var n := c as int;
    var bs := Utf8(c);
    var b := seq(|bs|, i requires 0 <= i < |bs| => bs[i] as int);
    if n < 0x80 {
    } else if n < 0x800 {
      assert (b[0] - 0xC0) * 64 + (b[1] - 0x80) == n;
    } else if n < 0x10000 {
      var q := n / 64;
      assert b[1] - 0x80 == q % 64 && b[0] - 0xE0 == q / 64;
      assert (b[0] - 0xE0) * 64 + (b[1] - 0x80) == q;
    } else {
      var q := n / 64;
      var q2 := q / 64;
      assert n / 4096 == q2;
      assert n / 262144 == q2 / 64;
      assert (b[0] - 0xF0) * 64 + (b[1] - 0x80) == q2;
      assert ((b[0] - 0xF0) * 64 + (b[1] - 0x80)) * 64 + (b[2] - 0x80) == q;
    }
  }

  // ---------------------------------------------------------------------------
  // Percent escapes
  // ---------------------------------------------------------------------------

  /** An upper-case hex digit. */
  function HexDigit(d: int): (c: char)
    requires 0 <= d < 16
  {
    if d < 10 then ('0' as int + d) as char else ('A' as int + d - 10) as char
  }

  /** The value of a hex digit in either case. */
  function HexValue(c: char): Option<int> {
    if '0' <= c <= '9' then Some(c as int - '0' as int)
    else if 'A' <= c <= 'F' then Some(c as int - 'A' as int + 10)
    else if 'a' <= c <= 'f' then Some(c as int - 'a' as int + 10)
    else None
  }

  /** `%XX` for one byte. */
  function Escape(b: Byte): (e: string)
    ensures |e| == 3 && e[0] == '%'
  {
    ['%', HexDigit(b / 16), HexDigit(b % 16)]
  }

  function EscapeAll(bs: seq<Byte>): (e: string)
    ensures |e| == 3 * |bs|
  {
    if bs == [] then [] else Escape(bs[0]) + EscapeAll(bs[1..])
  }

  /** Reads `%XX` at the start of `s`. */
  function ReadEscape(s: string): Option<Byte> {
    if |s| < 3 || s[0] != '%' then None
    else match (HexValue(s[1]), HexValue(s[2]))
      case (Some(hi), Some(lo)) => Some(hi * 16 + lo)
      case _ => None
  }

  /** The escapes of `bs`, read from the `k`-th on. */
  lemma {:induction false} EscapeAllFrom(bs: seq<Byte>, t: string, k: nat)
    requires k < |bs|
    ensures (EscapeAll(bs) + t)[3 * k..] == Escape(bs[k]) + (EscapeAll(bs[k + 1..]) + t)
    decreases k
  {
    var whole := EscapeAll(bs) + t;
    var tail := EscapeAll(bs[1..]) + t;
    assert whole == Escape(bs[0]) + tail;
    if k == 0 {
      assert whole[0..] == whole;
    } else {
      EscapeAllFrom(bs[1..], t, k - 1);
      assert whole[3 * k..] == tail[3 * (k - 1)..];
      assert bs[1..][k - 1] == bs[k];
      assert bs[1..][k..] == bs[k + 1..];
    }
  }

  lemma ReadEscapeAt(bs: seq<Byte>, t: string, k: nat)
    requires k < |bs|
    ensures ReadEscape((EscapeAll(bs) + t)[3 * k..]) == Some(bs[k])
  {
    EscapeAllFrom(bs, t, k);
    EscapeReadsBefore(bs[k], EscapeAll(bs[k + 1..]) + t);
  }

  /** Whatever follows an escape does not change how it reads. */
  lemma EscapeReadsBefore(b: Byte, r: string)
    ensures ReadEscape(Escape(b) + r) == Some(b)
  {
    var e := Escape(b);
    var s := e + r;
    assert s[0] == e[0] && s[1] == e[1] && s[2] == e[2];
    EscapeReads(b);
  }

  // ---------------------------------------------------------------------------
  // encodeURIComponent / decodeURIComponent
  // ---------------------------------------------------------------------------

  function EncodeChar(c: char): (e: string)
    ensures Unreserved(c) ==> e == [c]
    ensures !Unreserved(c) ==> |e| > 0 && e[0] == '%'
  {
    if Unreserved(c) then [c] else EscapeAll(Utf8(c))
  }

  /** `encodeURIComponent`. */
  function Encode(s: string): (e: string)
    ensures |e| >= |s|
  {
    if s == [] then [] else EncodeChar(s[0]) + Encode(s[1..])
  }

  /** The bytes `n` escapes starting at `s` stand for, read one `%XX` at a time. */
  function ReadEscapes(s: string, n: nat): Option<seq<Byte>>
    decreases n
  {
    if n == 0 then Some([])
    else match ReadEscape(s)
      case None => None
      case Some(b) =>
        match ReadEscapes(s[3..], n - 1)
        case None => None
        case Some(rest) => Some([b] + rest)
  }

  /** One decoded character and the number of input characters it used. */
  function DecodeOne(s: string): (r: Option<(char, nat)>)
    requires |s| > 0
    ensures r.Some? ==> 1 <= r.value.1 <= |s|
  {
    if s[0] != '%' then Some((s[0], 1))
    else match ReadEscape(s)
      case None => None
      case Some(b) =>
        var n := Utf8Length(b);
        if n == 0 || |s| < 3 * n then None
        else match ReadEscapes(s, n)
          case None => None
          case Some(bs) =>
            match Utf8Decode(bs)
            case None => None
            case Some(c) => Some((c, 3 * n))
  }

  /** `decodeURIComponent`; `None` where it throws `URIError`. */
  function Decode(s: string): Option<string>
    decreases |s|
  {
    if s == [] then Some([])
    else match DecodeOne(s)
      case None => None
      case Some((c, n)) =>
        match Decode(s[n..])
        case None => None
        case Some(rest) => Some([c] + rest)
  }

  lemma {:induction false} ReadEscapesAll(bs: seq<Byte>, t: string)
    ensures ReadEscapes(EscapeAll(bs) + t, |bs|) == Some(bs)
    decreases |bs|
  {
    if bs != [] {
      ReadEscapeAt(bs, t, 0);
      ReadEscapesAll(bs[1..], t);
      EscapeAllFrom(bs, t, 0);
      assert (EscapeAll(bs) + t)[3..] == EscapeAll(bs[1..]) + t;
      assert [bs[0]] + bs[1..] == bs;
    }
  }

  lemma HexDigitValue(d: int)
    requires 0 <= d < 16
    ensures HexValue(HexDigit(d)) == Some(d)
  {
  }

  lemma EscapeReads(b: Byte)
    ensures ReadEscape(Escape(b)) == Some(b)
  {
    HexDigitValue(b / 16);
    HexDigitValue(b % 16);
  }

  lemma DecodeOneEncodeChar(c: char, t: string)
    ensures DecodeOne(EncodeChar(c) + t) == Some((c, |EncodeChar(c)|))
  {
    if !Unreserved(c) {
      var bs := Utf8(c);
      var s := EscapeAll(bs) + t;
      ReadEscapeAt(bs, t, 0);
      EscapeReads(bs[0]);
      assert s[..3] == Escape(bs[0]);
      Utf8Decodes(c);
      ReadEscapesAll(bs, t);
    }
  }

  /** Decoding undoes encoding, for every string. */
  lemma {:induction false} DecodeEncode(s: string)
    ensures Decode(Encode(s)) == Some(s)
    decreases |s|
  {
    if s != [] {
      var e := EncodeChar(s[0]);
      DecodeOneEncodeChar(s[0], Encode(s[1..]));
      assert (e + Encode(s[1..]))[|e|..] == Encode(s[1..]);
      DecodeEncode(s[1..]);
      assert [s[0]] + s[1..] == s;
    }
  }

  /** Strings of unreserved characters, package names among them, are not changed. */
  lemma {:induction false} EncodeUnreserved(s: string)
    requires forall i :: 0 <= i < |s| ==> Unreserved(s[i])
    ensures Encode(s) == s
    decreases |s|
  {
    if s != [] {
      EncodeUnreserved(s[1..]);
      assert [s[0]] + s[1..] == s;
    }
  }

  /** The encoded text holds only unreserved characters and escapes. */
  lemma {:induction false} EncodeAlphabet(s: string)
    ensures forall i :: 0 <= i < |Encode(s)| ==> Unreserved(Encode(s)[i]) || Encode(s)[i] == '%'
    decreases |s|
  {
    if s != [] {
      EncodeAlphabet(s[1..]);
      var e := EncodeChar(s[0]);
      if !Unreserved(s[0]) {
        EscapeAllAlphabet(Utf8(s[0]));
      }
      var whole := Encode(s);
      assert whole == e + Encode(s[1..]);
      forall i | 0 <= i < |whole|
        ensures Unreserved(whole[i]) || whole[i] == '%'
      {
        if i >= |e| { assert whole[i] == Encode(s[1..])[i - |e|]; }
      }
    }
  }

  lemma {:induction false} EscapeAllAlphabet(bs: seq<Byte>)
    ensures forall i :: 0 <= i < |EscapeAll(bs)| ==> EscapeAll(bs)[i] == '%' || IsAlnum(EscapeAll(bs)[i])
    decreases |bs|
  {
    if bs != [] {
      EscapeAllAlphabet(bs[1..]);
      var whole := EscapeAll(bs);
      forall i | 0 <= i < |whole|
        ensures whole[i] == '%' || IsAlnum(whole[i])
      {
        if i >= 3 { assert whole[i] == EscapeAll(bs[1..])[i - 3]; }
      }
    }
  }
}
