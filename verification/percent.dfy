/**
 * UTF-8 and percent-encoding, as the two browser encoders used by the
 * dashboard define them:
 *  - the application/x-www-form-urlencoded serializer of section 5.2 of the
 *    WHATWG URL Standard (what `URLSearchParams.toString()` produces), and
 *  - `encodeURIComponent` of ECMA-262 section 19.2.6.
 * Each encoder has a decoder beside it and a round-trip lemma.
 */
module Percent {
  import opened Wrappers
  import opened Strings

  type Byte = b: int | 0 <= b < 256

  // ---------------------------------------------------------------------------
  // UTF-8

  /** The UTF-8 encoding of one Unicode scalar value: 1 to 4 bytes. */
  function CodePointBytes(c: char): (r: seq<Byte>)
    ensures 1 <= |r| <= 4
    ensures (|r| == 1) == (c as int < 0x80)
    ensures |r| == 1 ==> r[0] == c as int
  {
    var n := c as int;
    if n < 0x80 then [n]
    else if n < 0x800 then [0xC0 + n / 64, 0x80 + n % 64]
    else if n < 0x10000 then [0xE0 + n / 4096, 0x80 + (n / 64) % 64, 0x80 + n % 64]
    else [0xF0 + n / 0x40000, 0x80 + (n / 4096) % 64, 0x80 + (n / 64) % 64, 0x80 + n % 64]
  }

  function Utf8Encode(s: string): (r: seq<Byte>)
    ensures |s| <= |r| <= 4 * |s|
  {
    if s == [] then [] else CodePointBytes(s[0]) + Utf8Encode(s[1..])
  }

  predicate IsCont(b: Byte) {
    0x80 <= b < 0xC0
  }

  predicate IsScalar(n: int) {
    (0 <= n < 0xD800) || (0xE000 <= n < 0x110000)
  }

  function Cons(c: char, rest: Option<string>): Option<string> {
    match rest
    case None => None
    case Some(t) => Some([c] + t)
  }

  /**
   * Strict UTF-8 decoding: `None` on a truncated sequence, a stray
   * continuation byte, an overlong form, a surrogate or a value above U+10FFFF.
   */
  function Utf8Decode(bs: seq<Byte>): Option<string>
    decreases |bs|
  {
    if bs == [] then Some([])
    else
      var b0 := bs[0];
      if b0 < 0x80 then Cons(b0 as char, Utf8Decode(bs[1..]))
      else if 0xC2 <= b0 < 0xE0 && |bs| >= 2 && IsCont(bs[1]) then
        var n := Combine2(b0, bs[1]);
        Cons(n as char, Utf8Decode(bs[2..]))
      else if 0xE0 <= b0 < 0xF0 && |bs| >= 3 && IsCont(bs[1]) && IsCont(bs[2]) then
        var n := Combine3(b0, bs[1], bs[2]);
        if 0x800 <= n && IsScalar(n) then Cons(n as char, Utf8Decode(bs[3..])) else None
      else if 0xF0 <= b0 < 0xF5 && |bs| >= 4 && IsCont(bs[1]) && IsCont(bs[2]) && IsCont(bs[3]) then
        var n := Combine4(b0, bs[1], bs[2], bs[3]);
        if 0x10000 <= n < 0x110000 then Cons(n as char, Utf8Decode(bs[4..])) else None
      else None
  }

  /** The code point carried by a two-, three- or four-byte sequence. */
  function Combine2(b0: Byte, b1: Byte): (n: int)
    requires 0xC2 <= b0 < 0xE0 && IsCont(b1)
    ensures 0x80 <= n < 0x800
  {
    (b0 as int - 0xC0) * 64 + (b1 as int - 0x80)
  }

  function Combine3(b0: Byte, b1: Byte, b2: Byte): int
    requires 0xE0 <= b0 < 0xF0 && IsCont(b1) && IsCont(b2)
  {
    (b0 as int - 0xE0) * 4096 + (b1 as int - 0x80) * 64 + (b2 as int - 0x80)
  }

  function Combine4(b0: Byte, b1: Byte, b2: Byte, b3: Byte): int
    requires 0xF0 <= b0 < 0xF5 && IsCont(b1) && IsCont(b2) && IsCont(b3)
  {
    (b0 as int - 0xF0) * 0x40000 + (b1 as int - 0x80) * 4096 + (b2 as int - 0x80) * 64 + (b3 as int - 0x80)
  }

  lemma Split2(n: int)
    requires 0x80 <= n < 0x800
    ensures 0xC2 <= 0xC0 + n / 64 < 0xE0 && Combine2(0xC0 + n / 64, 0x80 + n % 64) == n
  {
  }

  lemma Split3(n: int)
    requires 0x800 <= n < 0x10000
    ensures Combine3(0xE0 + n / 4096, 0x80 + (n / 64) % 64, 0x80 + n % 64) == n
  {
    var q := n / 64;
    assert n == q * 64 + n % 64;
    assert q == (q / 64) * 64 + q % 64;
    assert q / 64 == n / 4096;
  }

  lemma Split4(n: int)
    requires 0x10000 <= n < 0x110000
    ensures Combine4(0xF0 + n / 0x40000, 0x80 + (n / 4096) % 64, 0x80 + (n / 64) % 64, 0x80 + n % 64) == n
  {
    var q := n / 64;
    var r := q / 64;
    assert n == q * 64 + n % 64;
    assert q == r * 64 + q % 64;
    assert r == (r / 64) * 64 + r % 64;
    assert r == n / 4096;
    assert r / 64 == n / 0x40000;
  }

  lemma CodePointBytesDecode(c: char, rest: seq<Byte>)
    ensures Utf8Decode(CodePointBytes(c) + rest) == Cons(c, Utf8Decode(rest))
  {
    var n := c as int;
    var bs := CodePointBytes(c) + rest;
    var k := |CodePointBytes(c)|;
    assert bs[k..] == rest;
    if n < 0x80 {
    } else if n < 0x800 {
      Split2(n);
    } else if n < 0x10000 {
      Split3(n);
    } else {
      Split4(n);
    }
  }

  /** Decoding undoes encoding: the UTF-8 encoder loses nothing. */
  lemma {:induction false} Utf8RoundTrip(s: string)
    ensures Utf8Decode(Utf8Encode(s)) == Some(s)
  {
    if s != [] {
      Utf8RoundTrip(s[1..]);
      CodePointBytesDecode(s[0], Utf8Encode(s[1..]));
      assert [s[0]] + s[1..] == s;
    }
  }

  lemma {:induction false} Utf8EncodeAppend(a: string, b: string)
    ensures Utf8Encode(a + b) == Utf8Encode(a) + Utf8Encode(b)
  {
    if a == [] {
      assert a + b == b;
    } else {
      assert (a + b)[0] == a[0] && (a + b)[1..] == a[1..] + b;
      Utf8EncodeAppend(a[1..], b);
      calc {
        Utf8Encode(a + b);
        CodePointBytes(a[0]) + Utf8Encode(a[1..] + b);
        CodePointBytes(a[0]) + (Utf8Encode(a[1..]) + Utf8Encode(b));
        (CodePointBytes(a[0]) + Utf8Encode(a[1..])) + Utf8Encode(b);
      }
    }
  }

  // ---------------------------------------------------------------------------
  // Percent-encoding of bytes

  /** Which of the two browser encoders is meant. */
  datatype Mode = Form | UriComponent

  predicate IsAsciiAlnum(b: int) {
    (0x30 <= b <= 0x39) || (0x41 <= b <= 0x5A) || (0x61 <= b <= 0x7A)
  }

  /**
   * Bytes written as themselves: ASCII letters and digits plus `*-._` for the
   * form serializer, plus `-_.!~*'()` for encodeURIComponent.
   */
  predicate KeptAsIs(mode: Mode, b: Byte) {
    IsAsciiAlnum(b) ||
    match mode
    case Form => b == 0x2A || b == 0x2D || b == 0x2E || b == 0x5F
    case UriComponent =>
      b == 0x2D || b == 0x5F || b == 0x2E || b == 0x21 || b == 0x7E || b == 0x2A || b == 0x27 || b == 0x28 || b == 0x29
  }

  const HexDigits: string := "0123456789ABCDEF"

  function HexValue(c: char): (r: Option<nat>)
    ensures r.Some? ==> r.value < 16
  {
    if '0' <= c <= '9' then Some(c as int - '0' as int)
    else if 'A' <= c <= 'F' then Some(c as int - 'A' as int + 10)
    else if 'a' <= c <= 'f' then Some(c as int - 'a' as int + 10)
    else None
  }

  /** One byte, encoded: itself, `+` for a space in form mode, else `%XX` in upper-case hex. */
  function EncodeByte(mode: Mode, b: Byte): (r: string)
    ensures |r| == 1 || |r| == 3
    ensures |r| == 1 <==> KeptAsIs(mode, b) || (mode == Form && b == 0x20)
  {
    if KeptAsIs(mode, b) then [b as char]
    else if mode == Form && b == 0x20 then "+"
    else ['%', HexDigits[b / 16], HexDigits[b % 16]]
  }

  function EncodeBytes(mode: Mode, bs: seq<Byte>): string {
    if bs == [] then "" else EncodeByte(mode, bs[0]) + EncodeBytes(mode, bs[1..])
  }

  /** The encoding of a string: its UTF-8 bytes, each encoded. */
  function Encode(mode: Mode, s: string): (r: string)
    ensures forall i :: 0 <= i < |r| ==> Safe(r[i])
  {
    EncodeBytesSafe(mode, Utf8Encode(s));
    EncodeBytes(mode, Utf8Encode(s))
  }

  /** The characters an encoder can emit: never `&`, `=`, `#`, `?`, `/` or a space. */
  predicate Safe(c: char) {
    IsAsciiAlnum(c as int) || c in "*-._!~'()+%"
  }

  lemma {:induction false} EncodeBytesSafe(mode: Mode, bs: seq<Byte>)
    ensures forall i :: 0 <= i < |EncodeBytes(mode, bs)| ==> Safe(EncodeBytes(mode, bs)[i])
  {
    if bs != [] {
      EncodeBytesSafe(mode, bs[1..]);
      var e := EncodeByte(mode, bs[0]);
      assert forall i :: 0 <= i < |e| ==> Safe(e[i]);
    }
  }

  /**
   * Percent-decoding as section 1.3 of the WHATWG URL Standard defines it:
   * `%` followed by two hex digits is that byte, any other `%` stays; in form
   * mode `+` is first read as a space. Other characters stand for their UTF-8
   * bytes.
   */
  function DecodeBytes(mode: Mode, t: string): seq<Byte>
    decreases |t|
  {
    if t == [] then []
    else if t[0] == '%' && |t| >= 3 && HexValue(t[1]).Some? && HexValue(t[2]).Some? then
      [HexValue(t[1]).value * 16 + HexValue(t[2]).value] + DecodeBytes(mode, t[3..])
    else if t[0] == '+' && mode == Form then [0x20] + DecodeBytes(mode, t[1..])
    else CodePointBytes(t[0]) + DecodeBytes(mode, t[1..])
  }

  lemma HexDigitsValue(d: nat)
    requires d < 16
    ensures HexValue(HexDigits[d]) == Some(d)
  {
  }

  lemma EncodeByteDecode(mode: Mode, b: Byte, rest: string)
    ensures DecodeBytes(mode, EncodeByte(mode, b) + rest) == [b] + DecodeBytes(mode, rest)
  {
    var t := EncodeByte(mode, b) + rest;
    if KeptAsIs(mode, b) {
      assert t[1..] == rest;
    } else if mode == Form && b == 0x20 {
      assert t[1..] == rest;
    } else {
      HexDigitsValue(b / 16);
      HexDigitsValue(b % 16);
      assert t[3..] == rest;
    }
  }

  lemma {:induction false} EncodeBytesRoundTrip(mode: Mode, bs: seq<Byte>)
    ensures DecodeBytes(mode, EncodeBytes(mode, bs)) == bs
  {
    if bs != [] {
      EncodeBytesRoundTrip(mode, bs[1..]);
      EncodeByteDecode(mode, bs[0], EncodeBytes(mode, bs[1..]));
      assert [bs[0]] + bs[1..] == bs;
    }
  }

  /** The decoder paired with `Encode`: percent-decode, then UTF-8 decode. */
  function Decode(mode: Mode, t: string): Option<string> {
    Utf8Decode(DecodeBytes(mode, t))
  }

  /** Both encoders are lossless: decoding gives the original string back. */
  lemma EncodeRoundTrip(mode: Mode, s: string)
    ensures Decode(mode, Encode(mode, s)) == Some(s)
  {
    EncodeBytesRoundTrip(mode, Utf8Encode(s));
    Utf8RoundTrip(s);
  }

  lemma {:induction false} EncodeBytesAppend(mode: Mode, a: seq<Byte>, b: seq<Byte>)
    ensures EncodeBytes(mode, a + b) == EncodeBytes(mode, a) + EncodeBytes(mode, b)
  {
    if a == [] {
      assert a + b == b;
    } else {
      assert (a + b)[0] == a[0] && (a + b)[1..] == a[1..] + b;
      EncodeBytesAppend(mode, a[1..], b);
      calc {
        EncodeBytes(mode, a + b);
        EncodeByte(mode, a[0]) + EncodeBytes(mode, a[1..] + b);
        EncodeByte(mode, a[0]) + (EncodeBytes(mode, a[1..]) + EncodeBytes(mode, b));
        (EncodeByte(mode, a[0]) + EncodeBytes(mode, a[1..])) + EncodeBytes(mode, b);
      }
    }
  }

  lemma EncodeAppend(mode: Mode, a: string, b: string)
    ensures Encode(mode, a + b) == Encode(mode, a) + Encode(mode, b)
  {
    Utf8EncodeAppend(a, b);
    EncodeBytesAppend(mode, Utf8Encode(a), Utf8Encode(b));
  }

  /** `encodeURIComponent(s)`. */
  function EncodeUriComponent(s: string): (r: string)
    ensures forall i :: 0 <= i < |r| ==> Safe(r[i]) && r[i] != '+'
  {
    EncodeBytesNoPlus(Utf8Encode(s));
    Encode(UriComponent, s)
  }

  lemma {:induction false} EncodeBytesNoPlus(bs: seq<Byte>)
    ensures '+' !in EncodeBytes(UriComponent, bs)
  {
    if bs != [] {
      EncodeBytesNoPlus(bs[1..]);
    }
  }

  // ---------------------------------------------------------------------------
  // application/x-www-form-urlencoded lists of name-value pairs

  /** `new URLSearchParams(pairs).toString()`: `name=value` pieces joined by `&`. */
  function Serialize(pairs: seq<(string, string)>): string {
    if pairs == [] then ""
    else if |pairs| == 1 then Piece(pairs[0])
    else Piece(pairs[0]) + "&" + Serialize(pairs[1..])
  }

  function Piece(p: (string, string)): string {
    Encode(Form, p.0) + "=" + Encode(Form, p.1)
  }

  /**
   * The form-urlencoded parser of section 5.1 of the WHATWG URL Standard:
   * split on `&`, skip empty pieces, split each at its first `=`, decode both
   * halves. `None` stands for a half that is not valid UTF-8, which the
   * standard replaces by U+FFFD.
   */
  function Parse(s: string): Option<seq<(string, string)>> {
    ParsePieces(Split(s, '&'))
  }

  function ParsePieces(pieces: seq<string>): Option<seq<(string, string)>> {
    if pieces == [] then Some([])
    else if pieces[0] == "" then ParsePieces(pieces[1..])
    else
      var name := if '=' in pieces[0] then pieces[0][..FirstIndexOf(pieces[0], '=')] else pieces[0];
      var value := if '=' in pieces[0] then pieces[0][FirstIndexOf(pieces[0], '=') + 1..] else "";
      match (Decode(Form, name), Decode(Form, value), ParsePieces(pieces[1..]))
      case (Some(n), Some(v), Some(rest)) => Some([(n, v)] + rest)
      case _ => None
  }

  function Pieces(pairs: seq<(string, string)>): (r: seq<string>)
    ensures |r| == |pairs|
  {
    if pairs == [] then [] else [Piece(pairs[0])] + Pieces(pairs[1..])
  }

  lemma {:induction false} SerializeIsJoin(pairs: seq<(string, string)>)
    requires pairs != []
    ensures Serialize(pairs) == Join(Pieces(pairs), '&')
  {
    if |pairs| > 1 {
      SerializeIsJoin(pairs[1..]);
      assert Pieces(pairs)[1..] == Pieces(pairs[1..]);
    }
  }

  lemma PieceParses(p: (string, string))
    ensures Piece(p) != ""
    ensures '&' !in Piece(p)
    ensures '=' in Piece(p) && FirstIndexOf(Piece(p), '=') == |Encode(Form, p.0)|
  {
    var a := Encode(Form, p.0);
    var t := Piece(p);
    assert t[|a|] == '=';
    assert '=' !in a by {
      assert forall i :: 0 <= i < |a| ==> Safe(a[i]);
    }
    assert t[..|a|] == a;
    assert forall i :: 0 <= i < |t| ==> t[i] != '&' by {
      assert forall i :: 0 <= i < |t| && i != |a| ==> Safe(t[i]);
    }
  }

  lemma {:induction false} ParsePiecesRoundTrip(pairs: seq<(string, string)>)
    ensures ParsePieces(Pieces(pairs)) == Some(pairs)
  {
    if pairs != [] {
      ParsePiecesRoundTrip(pairs[1..]);
      ParsePieceHead(pairs[0], Pieces(pairs[1..]), pairs[1..]);
      assert [pairs[0]] + pairs[1..] == pairs;
    }
  }

  /** A serialized pair in front of pieces that parse reads back as that pair in front. */
  lemma ParsePieceHead(p: (string, string), rest: seq<string>, tail: seq<(string, string)>)
    requires ParsePieces(rest) == Some(tail)
    ensures ParsePieces([Piece(p)] + rest) == Some([p] + tail)
  {
    var t := Piece(p);
    var pieces := [t] + rest;
    PieceParses(p);
    assert pieces[0] == t && pieces[1..] == rest;
    var k := |Encode(Form, p.0)|;
    assert t[..k] == Encode(Form, p.0);
    assert t[k + 1..] == Encode(Form, p.1);
    EncodeRoundTrip(Form, p.0);
    EncodeRoundTrip(Form, p.1);
    assert (p.0, p.1) == p;
  }


  /** Parsing a serialized list gives back exactly the same names and values, in order. */
  lemma SerializeParseRoundTrip(pairs: seq<(string, string)>)
    ensures Parse(Serialize(pairs)) == Some(pairs)
  {
    if pairs == [] {
      assert Split("", '&') == [""];
    } else {
      SerializeIsJoin(pairs);
      forall k | 0 <= k < |Pieces(pairs)|
        ensures '&' !in Pieces(pairs)[k]
      {
        PiecesAt(pairs, k);
        PieceParses(pairs[k]);
      }
      JoinSplit(Pieces(pairs), '&');
      ParsePiecesRoundTrip(pairs);
    }
  }

  lemma {:induction false} PiecesAt(pairs: seq<(string, string)>, k: nat)
    requires k < |pairs|
    ensures Pieces(pairs)[k] == Piece(pairs[k])
  {
    if k > 0 {
      PiecesAt(pairs[1..], k - 1);
    }
  }

  /** A string made only of characters the encoder keeps is left unchanged. */
  lemma {:induction false} EncodeKept(mode: Mode, s: string)
    requires forall i :: 0 <= i < |s| ==> s[i] as int < 0x80 && KeptAsIs(mode, s[i] as int)
    ensures Encode(mode, s) == s
  {
    if s != [] {
      EncodeKept(mode, s[1..]);
      assert Utf8Encode(s) == [s[0] as int] + Utf8Encode(s[1..]);
      assert Utf8Encode(s)[1..] == Utf8Encode(s[1..]);
      assert [s[0]] + s[1..] == s;
    }
  }

  /** `/` is not kept by the form serializer: it becomes `%2F`. */
  lemma SlashEscaped()
    ensures Encode(Form, "/") == "%2F"
  {
    assert Utf8Encode("/") == [0x2F];
    assert EncodeByte(Form, 0x2F) == ['%', HexDigits[2], HexDigits[15]];
    assert EncodeBytes(Form, [0x2F]) == EncodeByte(Form, 0x2F) + EncodeBytes(Form, []);
  }

  lemma FormKeepsAlnumDot(s: string)
    requires forall i :: 0 <= i < |s| ==> IsAsciiAlnum(s[i] as int) || s[i] == '.'
    ensures Encode(Form, s) == s
  {
    EncodeKept(Form, s);
  }

  /**
   * A directory separator between two plain names is escaped, so that
   * `media/clip.mp4` is serialized as `media%2Fclip.mp4`.
   */
  lemma PathSeparatorEscaped(dir: string, name: string)
    requires forall i :: 0 <= i < |dir| ==> IsAsciiAlnum(dir[i] as int) || dir[i] == '.'
    requires forall i :: 0 <= i < |name| ==> IsAsciiAlnum(name[i] as int) || name[i] == '.'
    ensures Encode(Form, dir + "/" + name) == dir + "%2F" + name
  {
    FormKeepsAlnumDot(dir);
    FormKeepsAlnumDot(name);
    SlashEscaped();
    EncodeAppend(Form, dir, "/");
    EncodeAppend(Form, dir + "/", name);
  }

  /** A space is `+` in form encoding and `%20` in encodeURIComponent. */
  lemma SpaceEncodings()
    ensures Encode(Form, " ") == "+"
    ensures EncodeUriComponent(" ") == "%20"
  {
  }
}
