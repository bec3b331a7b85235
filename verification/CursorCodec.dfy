/**
 The opaque cursors of backend/src/graphql/connection.ts: the UTF-8 bytes of a prefixed row id in
 base64url (section 5 of RFC 4648), and back. The decoders are those of Node's Buffer, which never
 fail: malformed UTF-8 becomes U+FFFD, one for each maximal ill-formed part.
 */
module CursorCodec {
  import opened Prelude

  type byte = n: int | 0 <= n < 256
  type sextet = n: int | 0 <= n < 64

  // ---------------------------------------------------------------- UTF-8

  function EncodeChar(c: char): seq<byte> {
    var n := c as int;
    if n < 0x80 then [n]
    else if n < 0x800 then [0xC0 + n / 64, 0x80 + n % 64]
    else if n < 0x10000 then [0xE0 + n / 4096, 0x80 + n / 64 % 64, 0x80 + n % 64]
    else [0xF0 + n / 262144, 0x80 + n / 4096 % 64, 0x80 + n / 64 % 64, 0x80 + n % 64]
  }

  function EncodeUtf8(s: string): seq<byte> {
    if s == [] then [] else EncodeChar(s[0]) + EncodeUtf8(s[1..])
  }

  predicate Continues(b: seq<byte>, i: nat) { i < |b| && 0x80 <= b[i] < 0xC0 }

  /** Whether the second byte can follow the first, so that no code is overlong, a surrogate or beyond
      U+10FFFF. */
  predicate SecondFits(b: seq<byte>)
    requires b != []
  {
    && |b| > 1
    && (if b[0] == 0xE0 then 0xA0 else if b[0] == 0xF0 then 0x90 else 0x80)
         <= b[1] < (if b[0] == 0xED then 0xA0 else if b[0] == 0xF4 then 0x90 else 0xC0)
  }

  const REPLACEMENT := 0xFFFD

  function Code2(x: int, y: int): int { (x - 0xC0) * 64 + (y - 0x80) }
  function Code3(x: int, y: int, z: int): int { (x - 0xE0) * 4096 + (y - 0x80) * 64 + (z - 0x80) }
  function Code4(x: int, y: int, z: int, w: int): int {
    (x - 0xF0) * 262144 + (y - 0x80) * 4096 + (z - 0x80) * 64 + (w - 0x80)
  }

  /** The first code point of a non-empty byte string and the number of bytes it takes. */
  function FirstCode(b: seq<byte>): (r: (int, nat))
    requires b != []
    ensures 0 <= r.0 < 0xD800 || 0xE000 <= r.0 < 0x110000
    ensures 1 <= r.1 <= |b|
  {
    if b[0] < 0x80 then (b[0], 1)
    else if 0xC2 <= b[0] < 0xE0 then
      if Continues(b, 1) then (Code2(b[0], b[1]), 2) else (REPLACEMENT, 1)
    else if 0xE0 <= b[0] < 0xF0 then
      if !SecondFits(b) then (REPLACEMENT, 1)
      else if !Continues(b, 2) then (REPLACEMENT, 2)
      else (Code3(b[0], b[1], b[2]), 3)
    else if 0xF0 <= b[0] < 0xF5 then
      if !SecondFits(b) then (REPLACEMENT, 1)
      else if !Continues(b, 2) then (REPLACEMENT, 2)
      else if !Continues(b, 3) then (REPLACEMENT, 3)
      else (Code4(b[0], b[1], b[2], b[3]), 4)
    else (REPLACEMENT, 1)
  }

  function DecodeUtf8(b: seq<byte>): string {
    if b == [] then []
    else
      var (code, len) := FirstCode(b);
      [code as char] + DecodeUtf8(b[len..])
  }

  lemma SixBits(n: nat)
    ensures n == n / 64 * 64 + n % 64 && n / 64 == n / 4096 * 64 + n / 64 % 64
    ensures n / 4096 == n / 262144 * 64 + n / 4096 % 64
  {
    assert n / 64 / 64 == n / 4096 && n / 4096 / 64 == n / 262144;
  }

  lemma FirstCodeOfChar(c: char, rest: seq<byte>)
    ensures FirstCode(EncodeChar(c) + rest) == (c as int, |EncodeChar(c)|)
  {
    var n := c as int;
    SixBits(n);
    var e := EncodeChar(c);
    var b := e + rest;
    assert forall i :: 0 <= i < |e| ==> b[i] == e[i];
    if n < 0x80 {
    } else if n < 0x800 {
      assert Code2(e[0], e[1]) == n;
    } else if n < 0x10000 {
      assert Code3(e[0], e[1], e[2]) == n;
      assert SecondFits(b) && Continues(b, 2);
    } else {
      assert Code4(e[0], e[1], e[2], e[3]) == n;
      assert SecondFits(b) && Continues(b, 2) && Continues(b, 3);
    }
  }

  /** The number of bytes and their leading bits, as in section 3 of RFC 3629: the code point is read off the
      bits that remain. */
  lemma EncodingForm(c: char)
    ensures var b: seq<int>, n := EncodeChar(c), c as int;
            && (|b| == 1 ==> n < 0x80 && b[0] == n)
            && (|b| == 2 ==> 0x80 <= n < 0x800 && 0xC0 <= b[0] < 0xE0 && n == (b[0] - 0xC0) * 64 + (b[1] - 0x80))
            && (|b| == 3 ==>
                  && 0x800 <= n < 0x10000 && 0xE0 <= b[0] < 0xF0
                  && n == ((b[0] - 0xE0) * 64 + (b[1] - 0x80)) * 64 + (b[2] - 0x80))
            && (|b| == 4 ==>
                  && 0x10000 <= n && 0xF0 <= b[0] < 0xF5
                  && n == (((b[0] - 0xF0) * 64 + (b[1] - 0x80)) * 64 + (b[2] - 0x80)) * 64 + (b[3] - 0x80))
            && 1 <= |b| <= 4 && forall i :: 1 <= i < |b| ==> 0x80 <= b[i] < 0xC0
  {
    SixBits(c as int);
  }

  lemma Split64(q: nat, r: nat)
    requires r < 64
    ensures (q * 64 + r) / 64 == q && (q * 64 + r) % 64 == r
  {
  }

  lemma TwoBytes(x: int, y: int)
    requires 0xC2 <= x < 0xE0 && 0x80 <= y < 0xC0
    ensures EncodeChar(Code2(x, y) as char) == [x, y]
  {
    Split64(x - 0xC0, y - 0x80);
  }

  lemma ThreeBytes(x: int, y: int, z: int)
    requires 0xE0 <= x < 0xF0 && 0x80 <= y < 0xC0 && 0x80 <= z < 0xC0
    requires (x == 0xE0 ==> y >= 0xA0) && (x == 0xED ==> y < 0xA0)
    ensures EncodeChar(Code3(x, y, z) as char) == [x, y, z]
  {
    var q := (x - 0xE0) * 64 + (y - 0x80);
    Split64(q, z - 0x80);
    Split64(x - 0xE0, y - 0x80);
    SixBits(q * 64 + (z - 0x80));
  }

  lemma FourBytes(x: int, y: int, z: int, w: int)
    requires 0xF0 <= x < 0xF5 && 0x80 <= y < 0xC0 && 0x80 <= z < 0xC0 && 0x80 <= w < 0xC0
    requires (x == 0xF0 ==> y >= 0x90) && (x == 0xF4 ==> y < 0x90)
    ensures EncodeChar(Code4(x, y, z, w) as char) == [x, y, z, w]
  {
    var p := (x - 0xF0) * 64 + (y - 0x80);
    var q := p * 64 + (z - 0x80);
    Split64(q, w - 0x80);
    Split64(p, z - 0x80);
    Split64(x - 0xF0, y - 0x80);
    SixBits(q * 64 + (w - 0x80));
  }

  /** Nothing is decoded that encoding would not give: every code point but the replacement stands for its own
      bytes, so that overlong forms, surrogates and stray bytes are all replaced. */
  lemma DecodedIsEncoded(b: seq<byte>)
    requires b != []
    ensures var (code, len) := FirstCode(b); code == 0xFFFD || EncodeChar(code as char) == b[..len]
  {
    hide EncodeChar, Code2, Code3, Code4;
    var (code, len) := FirstCode(b);
    if code != 0xFFFD {
      if len == 1 {
        OneByte(b[0]);
      } else if len == 2 {
        TwoBytes(b[0], b[1]);
      } else if len == 3 {
        ThreeBytes(b[0], b[1], b[2]);
      } else {
        FourBytes(b[0], b[1], b[2], b[3]);
      }
    }
  }

  lemma OneByte(x: int)
    requires 0 <= x < 0x80
    ensures EncodeChar(x as char) == [x]
  {
  }

  lemma {:induction false} Utf8RoundTrip(s: string)
    ensures DecodeUtf8(EncodeUtf8(s)) == s
  {
    if s != [] {
      var rest := EncodeUtf8(s[1..]);
      FirstCodeOfChar(s[0], rest);
      assert EncodeUtf8(s)[|EncodeChar(s[0])|..] == rest;
      Utf8RoundTrip(s[1..]);
    }
  }

  // ---------------------------------------------------------------- base64url

  /** Bytes as groups of six bits, the last group filled up with zeros. */
  function Pack(b: seq<byte>): seq<sextet> {
    if |b| == 0 then []
    else if |b| == 1 then [Six1(b[0]), Six2(b[0], 0)]
    else if |b| == 2 then [Six1(b[0]), Six2(b[0], b[1]), Six3(b[1], 0)]
    else [Six1(b[0]), Six2(b[0], b[1]), Six3(b[1], b[2]), Six4(b[2])] + Pack(b[3..])
  }

  function Six1(x: byte): sextet { x / 4 }
  function Six2(x: byte, y: byte): sextet { x % 4 * 16 + y / 16 }
  function Six3(y: byte, z: byte): sextet { y % 16 * 4 + z / 64 }
  function Six4(z: byte): sextet { z % 64 }

  function Byte1(x: sextet, y: sextet): byte { x * 4 + y / 16 }
  function Byte2(y: sextet, z: sextet): byte { y % 16 * 16 + z / 4 }
  function Byte3(z: sextet, w: sextet): byte { z % 4 * 64 + w }

  /** The whole bytes in a string of sextets; left-over bits are dropped. */
  function Unpack(s: seq<sextet>): seq<byte> {
    if |s| <= 1 then []
    else if |s| == 2 then [Byte1(s[0], s[1])]
    else if |s| == 3 then [Byte1(s[0], s[1]), Byte2(s[1], s[2])]
    else [Byte1(s[0], s[1]), Byte2(s[1], s[2]), Byte3(s[2], s[3])] + Unpack(s[4..])
  }

  function Digit(v: sextet): char {
    if v < 26 then 'A' + v as char
    else if v < 52 then 'a' + (v - 26) as char
    else if v < 62 then '0' + (v - 52) as char
    else if v == 62 then '-'
    else '_'
  }

  function Digits(s: seq<sextet>): string {
    seq(|s|, i requires 0 <= i < |s| => Digit(s[i]))
  }

  /** The value of a digit; both the base64 and the base64url alphabets are read. */
  function Value(c: char): Option<sextet> {
    if 'A' <= c <= 'Z' then Some(c as int - 'A' as int)
    else if 'a' <= c <= 'z' then Some(c as int - 'a' as int + 26)
    else if '0' <= c <= '9' then Some(c as int - '0' as int + 52)
    else if c == '-' || c == '+' then Some(62)
    else if c == '_' || c == '/' then Some(63)
    else None
  }

  /** Characters that are no digits are skipped; a '=' ends the text. */
  function Values(s: string): seq<sextet> {
    if s == [] || s[0] == '=' then []
    else (if Value(s[0]).Some? then [Value(s[0]).value] else []) + Values(s[1..])
  }

  lemma GroupRoundTrip(x: byte, y: byte, z: byte)
    ensures Byte1(Six1(x), Six2(x, y)) == x
    ensures Byte2(Six2(x, y), Six3(y, z)) == y
    ensures Byte3(Six3(y, z), Six4(z)) == z
  {
  }

  /** The bits in the order of section 4 of RFC 4648: three bytes are a number of 24 bits, most significant
      first, and four sextets are the same number; a shorter last group is filled up with zeros. */
  lemma PackKeepsBits(b: seq<byte>)
    requires b != []
    ensures var p: seq<int>, b: seq<int> := Pack(b), b;
            if |b| == 1 then |p| == 2 && p[0] * 64 + p[1] == b[0] * 16
            else if |b| == 2 then |p| == 3 && (p[0] * 64 + p[1]) * 64 + p[2] == (b[0] * 256 + b[1]) * 4
            else && |p| >= 4 && ((p[0] * 64 + p[1]) * 64 + p[2]) * 64 + p[3] == (b[0] * 256 + b[1]) * 256 + b[2]
                 && p[4..] == Pack(b[3..])
  {
    hide Six1, Six2, Six3, Six4;
    if |b| >= 3 {
      assert Pack(b)[4..] == Pack(b[3..]);
      BitsOfGroup(b[0], b[1], b[2]);
    } else {
      BitsOfGroup(b[0], if |b| == 2 then b[1] else 0, 0);
    }
  }

  lemma BitsOfGroup(x: int, y: int, z: int)
    requires 0 <= x < 256 && 0 <= y < 256 && 0 <= z < 256
    ensures var p1: int, p2: int, p3: int, p4: int := Six1(x), Six2(x, y), Six3(y, z), Six4(z);
            && ((p1 * 64 + p2) * 64 + p3) * 64 + p4 == (x * 256 + y) * 256 + z
            && (z == 0 ==> p4 == 0) && (y == 0 && z == 0 ==> p3 == 0)
  {
  }

  lemma {:induction false} PackRoundTrip(b: seq<byte>)
    ensures Unpack(Pack(b)) == b
  {
    hide Six1, Six2, Six3, Six4, Byte1, Byte2, Byte3;
    if |b| == 1 {
      GroupRoundTrip(b[0], 0, 0);
    } else if |b| == 2 {
      GroupRoundTrip(b[0], b[1], 0);
    } else if |b| >= 3 {
      GroupRoundTrip(b[0], b[1], b[2]);
      PackRoundTrip(b[3..]);
      assert Pack(b)[4..] == Pack(b[3..]);
      assert b == b[..3] + b[3..];
    }
  }

  lemma {:induction false} DigitsRoundTrip(s: seq<sextet>)
    ensures Values(Digits(s)) == s
  {
    if s != [] {
      DigitsRoundTrip(s[1..]);
      assert Digits(s)[1..] == Digits(s[1..]);
      assert Value(Digit(s[0])) == Some(s[0]);
    }
  }

  /** Characters of no alphabet are skipped. */
  lemma {:induction false} ForeignSkipped(s: string, c: char, t: string)
    requires '=' !in s && c != '=' && Value(c).None?
    ensures Values(s + [c] + t) == Values(s + t)
  {
    hide Value;
    if s == [] {
      assert s + [c] + t == [c] + t && s + t == t && ([c] + t)[1..] == t;
    } else {
      assert (s + [c] + t)[1..] == s[1..] + [c] + t && (s + t)[1..] == s[1..] + t;
      ForeignSkipped(s[1..], c, t);
    }
  }

  /** Nothing is read after '='. */
  lemma {:induction false} PaddingEnds(s: string, t: string)
    requires '=' !in s
    ensures Values(s + "=" + t) == Values(s)
  {
    hide Value;
    if s == [] {
      assert s + "=" + t == "=" + t;
    } else {
      assert (s + "=" + t)[1..] == s[1..] + "=" + t;
      PaddingEnds(s[1..], t);
    }
  }

  lemma AlphabetsAlike()
    ensures Value('+') == Value('-') == Some(62) && Value('/') == Value('_') == Some(63) && Value('=').None?
  {
  }

  function EncodeText(s: string): string { Digits(Pack(EncodeUtf8(s))) }

  function DecodeText(s: string): string { DecodeUtf8(Unpack(Values(s))) }

  /** Every text survives the trip through UTF-8 and base64url. */
  lemma TextRoundTrip(s: string)
    ensures DecodeText(EncodeText(s)) == s
  {
    DigitsRoundTrip(Pack(EncodeUtf8(s)));
    PackRoundTrip(EncodeUtf8(s));
    Utf8RoundTrip(s);
  }

  // ---------------------------------------------------------------- cursors

  const CURSOR_PREFIX := "cursor:"

  function EncodeCursor(id: string): string { EncodeText(CURSOR_PREFIX + id) }

  /** The row id in a cursor; None stands for the "Invalid cursor" error. */
  function DecodeCursor(cursor: string): Option<string> {
    var decoded := DecodeText(cursor);
    if !(CURSOR_PREFIX <= decoded) || |decoded| == |CURSOR_PREFIX| then None
    else Some(decoded[|CURSOR_PREFIX|..])
  }

  /** Whatever the cursor, it is accepted for an id exactly when it decodes to the prefixed id, and the id is
      not empty. */
  lemma CursorDecodesIff(cursor: string, id: string)
    ensures DecodeCursor(cursor) == Some(id) <==> id != "" && DecodeText(cursor) == "cursor:" + id
  {
    var decoded, prefixed := DecodeText(cursor), "cursor:" + id;
    PrefixSplits(decoded, id);
    if decoded == prefixed && id != "" { assert DecodeCursor(cursor) == Some(id); }
  }

  lemma PrefixSplits(decoded: string, id: string)
    ensures decoded == "cursor:" + id <==> CURSOR_PREFIX <= decoded && decoded[|CURSOR_PREFIX|..] == id
  {
    if CURSOR_PREFIX <= decoded {
      assert decoded == CURSOR_PREFIX + decoded[|CURSOR_PREFIX|..];
    }
  }

  /** A cursor is refused exactly when it decodes to no prefixed id. */
  lemma CursorRefusedIff(cursor: string)
    ensures DecodeCursor(cursor).None? <==> !exists id :: id != "" && DecodeText(cursor) == "cursor:" + id
  {
    hide DecodeText;
    var r := DecodeCursor(cursor);
    if r.Some? {
      CursorDecodesIff(cursor, r.value);
    } else {
      forall id ensures !(id != "" && DecodeText(cursor) == "cursor:" + id) { CursorDecodesIff(cursor, id); }
    }
  }

  /** The alphabet of table 2 in section 5 of RFC 4648: four runs and two characters that are safe in URLs. */
  lemma Alphabet(v: sextet)
    ensures Digit(0) == 'A' && Digit(25) == 'Z' && Digit(26) == 'a' && Digit(51) == 'z'
    ensures Digit(52) == '0' && Digit(61) == '9' && Digit(62) == '-' && Digit(63) == '_'
    ensures v !in {25, 51, 61, 62, 63} ==> Digit(v + 1) as int == Digit(v) as int + 1
  {
  }

  /** Decoding undoes encoding for every id but the empty one, whose cursor is rejected. */
  lemma CursorRoundTrip(id: string)
    ensures DecodeCursor(EncodeCursor(id)) == if id == "" then None else Some(id)
  {
    TextRoundTrip(CURSOR_PREFIX + id);
  }

  /** Different ids have different cursors. */
  lemma CursorsDistinct(a: string, b: string)
    ensures EncodeCursor(a) == EncodeCursor(b) <==> a == b
  {
    CursorRoundTrip(a);
    CursorRoundTrip(b);
  }
}
