/** The two ends of the e-mail address's trip from the sign-up page to the verification
    page: ECMAScript's `encodeURIComponent` (UTF-8, then percent-encoding of every byte
    outside the unreserved set) and the WHATWG `URLSearchParams` reading of a query
    (`+` as space, percent-decoding to bytes, UTF-8 decoding). */
module UriComponent {
  import opened Common

  type Byte = b: int | 0 <= b < 256

  /** The characters `encodeURIComponent` leaves as they are: A-Z a-z 0-9 - _ . ! ~ * ' ( ) */
  predicate Unreserved(c: char) {
    || ('A' <= c <= 'Z') || ('a' <= c <= 'z') || ('0' <= c <= '9')
    || c == '-' || c == '_' || c == '.' || c == '!' || c == '~' || c == '*' || c == '\'' || c == '(' || c == ')'
  }

  predicate IsScalar(cp: int) {
    (0 <= cp < 0xD800) || (0xE000 <= cp < 0x110000)
  }

  /** The UTF-8 encoding of one character. */
  function Utf8(c: char): (r: seq<Byte>)
    ensures 1 <= |r| <= 4
    ensures |r| == 1 <==> c as int < 0x80
    ensures |r| == 1 ==> r[0] == c as int
  {
    var cp := c as int;
    if cp < 0x80 then [cp]
    else if cp < 0x800 then [0xC0 + cp / 64, 0x80 + cp % 64]
    else if cp < 0x10000 then [0xE0 + cp / 4096, 0x80 + (cp / 64) % 64, 0x80 + cp % 64]
    else [0xF0 + cp / 262144, 0x80 + (cp / 4096) % 64, 0x80 + (cp / 64) % 64, 0x80 + cp % 64]
  }

  function Utf8String(s: string): seq<Byte> {
    if |s| == 0 then [] else Utf8(s[0]) + Utf8String(s[1..])
  }

  predicate IsHex(c: char) {
    ('0' <= c <= '9') || ('A' <= c <= 'F') || ('a' <= c <= 'f')
  }

  function HexValue(c: char): (r: int)
    requires IsHex(c)
    ensures 0 <= r < 16
  {
    if '0' <= c <= '9' then c as int - 48
    else if 'A' <= c <= 'F' then c as int - 55
    else c as int - 87
  }

  /** Upper-case hexadecimal digit, as `encodeURIComponent` writes it. */
  function HexDigit(d: int): (c: char)
    requires 0 <= d < 16
    ensures IsHex(c) && HexValue(c) == d && Unreserved(c)
  {
    if d < 10 then (48 + d) as char else (55 + d) as char
  }

  function PercentByte(b: Byte): (r: string)
    ensures |r| == 3 && r[0] == '%' && IsHex(r[1]) && IsHex(r[2])
    ensures HexValue(r[1]) * 16 + HexValue(r[2]) == b
  {
    ['%', HexDigit(b / 16), HexDigit(b % 16)]
  }

  function PercentBytes(bs: seq<Byte>): string {
    if |bs| == 0 then [] else PercentByte(bs[0]) + PercentBytes(bs[1..])
  }

  function EncodeChar(c: char): string {
    if Unreserved(c) then [c] else PercentBytes(Utf8(c))
  }

  /** `encodeURIComponent(s)`. Its output holds only unreserved characters and `%`, so in
      particular none of `&`, `=`, `#`, `?` or `+`. */
  function Encode(s: string): (r: string)
    ensures forall i :: 0 <= i < |r| ==> Unreserved(r[i]) || r[i] == '%'
  {
    if |s| == 0 then []
    else
      var head := EncodeChar(s[0]);
      assert forall i :: 0 <= i < |head| ==> Unreserved(head[i]) || head[i] == '%' by {
        if !Unreserved(s[0]) {
          PercentBytesAlphabet(Utf8(s[0]));
        }
      }
      head + Encode(s[1..])
  }

  lemma {:induction false} PercentBytesAlphabet(bs: seq<Byte>)
    ensures forall i :: 0 <= i < |PercentBytes(bs)| ==> Unreserved(PercentBytes(bs)[i]) || PercentBytes(bs)[i] == '%'
  {
    if |bs| > 0 {
      PercentBytesAlphabet(bs[1..]);
    }
  }

  /** Percent-decoding of the query text: `%` and two hex digits give that byte, `+` gives
      a space, every other character gives its own UTF-8 bytes. */
  function PercentDecode(s: string): seq<Byte> {
    if |s| == 0 then []
    else if s[0] == '%' && |s| >= 3 && IsHex(s[1]) && IsHex(s[2]) then
      [HexValue(s[1]) * 16 + HexValue(s[2])] + PercentDecode(s[3..])
    else if s[0] == '+' then [0x20] + PercentDecode(s[1..])
    else Utf8(s[0]) + PercentDecode(s[1..])
  }

  predicate IsCont(b: Byte) {
    0x80 <= b < 0xC0
  }

  /** UTF-8 decoding; a byte that does not start a well-formed sequence becomes U+FFFD. */
  function Utf8Decode(bs: seq<Byte>): string
    decreases |bs|
  {
    if |bs| == 0 then []
    else if bs[0] < 0x80 then [bs[0] as char] + Utf8Decode(bs[1..])
    else if 0xC2 <= bs[0] <= 0xDF && |bs| >= 2 && IsCont(bs[1]) then
      [Decode2(bs[0], bs[1]) as char] + Utf8Decode(bs[2..])
    else if 0xE0 <= bs[0] <= 0xEF && |bs| >= 3 && IsCont(bs[1]) && IsCont(bs[2])
         && Decode3(bs[0], bs[1], bs[2]) >= 0x800 && IsScalar(Decode3(bs[0], bs[1], bs[2])) then
      [Decode3(bs[0], bs[1], bs[2]) as char] + Utf8Decode(bs[3..])
    else if 0xF0 <= bs[0] <= 0xF4 && |bs| >= 4 && IsCont(bs[1]) && IsCont(bs[2]) && IsCont(bs[3])
         && 0x10000 <= Decode4(bs[0], bs[1], bs[2], bs[3]) < 0x110000 then
      [Decode4(bs[0], bs[1], bs[2], bs[3]) as char] + Utf8Decode(bs[4..])
    else ['\U{FFFD}'] + Utf8Decode(bs[1..])
  }

  function Decode2(b0: Byte, b1: Byte): int {
    (b0 - 0xC0) * 64 + (b1 - 0x80)
  }

  function Decode3(b0: Byte, b1: Byte, b2: Byte): int {
    (b0 - 0xE0) * 4096 + (b1 - 0x80) * 64 + (b2 - 0x80)
  }

  function Decode4(b0: Byte, b1: Byte, b2: Byte, b3: Byte): int {
    (b0 - 0xF0) * 262144 + (b1 - 0x80) * 4096 + (b2 - 0x80) * 64 + (b3 - 0x80)
  }

  /** The decoded value of one query component. */
  function Decode(s: string): (r: string)
    // text that needs no escaping decodes to itself
    ensures (forall i :: 0 <= i < |s| ==> Unreserved(s[i])) ==> r == s
  {
    DecodeUnreservedText(s);
    Utf8Decode(PercentDecode(s))
  }

  /** Each unreserved character is one ASCII byte, and that byte decodes back to it. */
  lemma {:induction false} DecodeUnreservedText(s: string)
    ensures (forall i :: 0 <= i < |s| ==> Unreserved(s[i])) ==> Utf8Decode(PercentDecode(s)) == s
  {
    if |s| > 0 && forall i :: 0 <= i < |s| ==> Unreserved(s[i]) {
      assert Unreserved(s[0]);
      var rest := PercentDecode(s[1..]);
      assert PercentDecode(s) == [s[0] as int] + rest;
      assert ([s[0] as int] + rest)[1..] == rest;
      assert forall i :: 0 <= i < |s[1..]| ==> s[1..][i] == s[i + 1];
      DecodeUnreservedText(s[1..]);
      assert s == [s[0]] + s[1..];
    }
  }

  lemma Split64(n: int)
    requires n >= 0
    ensures n == (n / 64) * 64 + n % 64 && 0 <= n % 64 < 64
  {
  }

  /** Decoding the UTF-8 of a character gives the character back. */
  lemma Utf8DecodeChar(c: char, rest: seq<Byte>)
    ensures Utf8Decode(Utf8(c) + rest) == [c] + Utf8Decode(rest)
  {
    var cp := c as int;
    if cp < 0x80 {
      assert (Utf8(c) + rest)[1..] == rest;
    } else if cp < 0x800 {
      Utf8DecodeTwo(c, rest);
    } else if cp < 0x10000 {
      Utf8DecodeThree(c, rest);
    } else {
      Utf8DecodeFour(c, rest);
    }
  }

  lemma Utf8DecodeTwo(c: char, rest: seq<Byte>)
    requires 0x80 <= c as int < 0x800
    ensures Utf8Decode(Utf8(c) + rest) == [c] + Utf8Decode(rest)
  {
    var cp := c as int;
    var bs := Utf8(c) + rest;
    Split64(cp);
    assert bs[0] == 0xC0 + cp / 64 && bs[1] == 0x80 + cp % 64;
    assert Decode2(bs[0], bs[1]) == cp;
    assert bs[2..] == rest;
  }

  lemma Utf8DecodeThree(c: char, rest: seq<Byte>)
    requires 0x800 <= c as int < 0x10000
    ensures Utf8Decode(Utf8(c) + rest) == [c] + Utf8Decode(rest)
  {
    var cp := c as int;
    var bs := Utf8(c) + rest;
    Utf8ThreeBytes(cp);
    assert bs[0] == 0xE0 + cp / 4096 && bs[1] == 0x80 + (cp / 64) % 64 && bs[2] == 0x80 + cp % 64;
    assert bs[3..] == rest;
  }

  /** The arithmetic of a three-byte sequence: its payload is the code point. */
  lemma Utf8ThreeBytes(cp: int)
    requires 0x800 <= cp < 0x10000
    ensures Decode3(0xE0 + cp / 4096, 0x80 + (cp / 64) % 64, 0x80 + cp % 64) == cp
  {
    var q := cp / 64;
    Split64(cp);
    Split64(q);
    assert q / 64 == cp / 4096;
  }

  lemma Utf8DecodeFour(c: char, rest: seq<Byte>)
    requires 0x10000 <= c as int
    ensures Utf8Decode(Utf8(c) + rest) == [c] + Utf8Decode(rest)
  {
    var cp := c as int;
    var bs := Utf8(c) + rest;
    Utf8FourBytes(cp);
    assert bs[0] == 0xF0 + cp / 262144 && bs[1] == 0x80 + (cp / 4096) % 64 && bs[2] == 0x80 + (cp / 64) % 64 && bs[3] == 0x80 + cp % 64;
    assert bs[4..] == rest;
  }

  /** The arithmetic of a four-byte sequence: its payload is the code point. */
  lemma Utf8FourBytes(cp: int)
    requires 0x10000 <= cp < 0x110000
    ensures Decode4(0xF0 + cp / 262144, 0x80 + (cp / 4096) % 64, 0x80 + (cp / 64) % 64, 0x80 + cp % 64) == cp
  {
    var q := cp / 64;
    var q2 := q / 64;
    Split64(cp);
    Split64(q);
    Split64(q2);
    assert q2 == cp / 4096;
    assert q2 / 64 == cp / 262144;
  }

  lemma {:induction false} Utf8RoundTrip(s: string)
    ensures Utf8Decode(Utf8String(s)) == s
  {
    if |s| > 0 {
      Utf8DecodeChar(s[0], Utf8String(s[1..]));
      Utf8RoundTrip(s[1..]);
    }
  }

  lemma {:induction false} PercentDecodeBytes(bs: seq<Byte>, rest: string)
    ensures PercentDecode(PercentBytes(bs) + rest) == bs + PercentDecode(rest)
  {
    if |bs| > 0 {
      var tail := PercentBytes(bs[1..]) + rest;
      calc {
        PercentDecode(PercentBytes(bs) + rest);
        { PercentBytesCons(bs, rest); }
        PercentDecode(PercentByte(bs[0]) + tail);
        { PercentDecodeByte(bs[0], tail); }
        [bs[0]] + PercentDecode(tail);
        { PercentDecodeBytes(bs[1..], rest); }
        [bs[0]] + (bs[1..] + PercentDecode(rest));
        { assert bs == [bs[0]] + bs[1..]; }
        bs + PercentDecode(rest);
      }
    } else {
      assert PercentBytes(bs) + rest == rest;
    }
  }

  lemma PercentBytesCons(bs: seq<Byte>, rest: string)
    requires |bs| > 0
    ensures PercentBytes(bs) + rest == PercentByte(bs[0]) + (PercentBytes(bs[1..]) + rest)
  {
    AppendAssoc(PercentByte(bs[0]), PercentBytes(bs[1..]), rest);
  }

  lemma AppendAssoc(a: string, b: string, c: string)
    ensures (a + b) + c == a + (b + c)
  {
  }

  /** One `%XX` triple decodes to its byte. */
  lemma PercentDecodeByte(b: Byte, rest: string)
    ensures PercentDecode(PercentByte(b) + rest) == [b] + PercentDecode(rest)
  {
    var t := PercentByte(b) + rest;
    assert t[3..] == rest;
  }

  /** Percent-decoding undoes the encoding down to the UTF-8 bytes of the text. */
  lemma {:induction false} PercentDecodeEncode(s: string)
    ensures PercentDecode(Encode(s)) == Utf8String(s)
  {
    if |s| > 0 {
      var c := s[0];
      PercentDecodeEncode(s[1..]);
      if Unreserved(c) {
        var t := Encode(s);
        assert t == [c] + Encode(s[1..]);
        assert t[1..] == Encode(s[1..]);
      } else {
        PercentDecodeBytes(Utf8(c), Encode(s[1..]));
      }
    }
  }

  /** `decode(encodeURIComponent(s)) == s` for every string. */
  lemma DecodeEncode(s: string)
    ensures Decode(Encode(s)) == s
  {
    PercentDecodeEncode(s);
    Utf8RoundTrip(s);
  }

  /** A text of unreserved characters is its own encoding. */
  lemma {:induction false} EncodeUnreserved(s: string)
    requires forall i :: 0 <= i < |s| ==> Unreserved(s[i])
    ensures Encode(s) == s
  {
    if |s| > 0 {
      EncodeUnreserved(s[1..]);
      assert s == [s[0]] + s[1..];
    }
  }

  /** The text before the first `sep`, or all of it. */
  function BeforeFirst(s: string, sep: char): (r: string)
    ensures |r| <= |s|
  {
    if |s| == 0 || s[0] == sep then [] else [s[0]] + BeforeFirst(s[1..], sep)
  }

  /** The text after the first `sep`, or nothing when there is none. */
  function AfterFirst(s: string, sep: char): (r: string)
    ensures |r| <= |s|
  {
    if |s| == 0 then [] else if s[0] == sep then s[1..] else AfterFirst(s[1..], sep)
  }

  lemma {:induction false} FirstSplit(a: string, sep: char, b: string)
    requires forall i :: 0 <= i < |a| ==> a[i] != sep
    ensures BeforeFirst(a + [sep] + b, sep) == a
    ensures AfterFirst(a + [sep] + b, sep) == b
  {
    if |a| > 0 {
      FirstSplit(a[1..], sep, b);
      assert (a + [sep] + b)[1..] == a[1..] + [sep] + b;
    } else {
      assert a + [sep] + b == [sep] + b;
    }
  }

  lemma {:induction false} BeforeFirstAbsent(s: string, sep: char)
    requires forall i :: 0 <= i < |s| ==> s[i] != sep
    ensures BeforeFirst(s, sep) == s
  {
    if |s| > 0 {
      BeforeFirstAbsent(s[1..], sep);
      assert s == [s[0]] + s[1..];
    }
  }

  /** `s.split(sep)`. */
  function Split(s: string, sep: char): (r: seq<string>)
    ensures |r| >= 1
  {
    if |s| == 0 then [[]]
    else
      var rest := Split(s[1..], sep);
      if s[0] == sep then [[]] + rest else [[s[0]] + rest[0]] + rest[1..]
  }

  lemma {:induction false} SplitAbsent(s: string, sep: char)
    requires forall i :: 0 <= i < |s| ==> s[i] != sep
    ensures Split(s, sep) == [s]
  {
    if |s| > 0 {
      SplitAbsent(s[1..], sep);
      assert s == [s[0]] + s[1..];
    }
  }

  /** The query of a URL: after the first `?`, up to the fragment. */
  function SearchOf(url: string): string {
    BeforeFirst(AfterFirst(url, '?'), '#')
  }

  /** `new URLSearchParams(query).get(name)`: the decoded value of the first non-empty
      `&`-separated piece whose decoded name (the text before its first `=`) is `name`. */
  function QueryGet(query: string, name: string): (r: Option<string>)
    // absent exactly when no piece carries the name; otherwise the value of the first that does
    ensures r.None? <==> NoPieceNamed(Split(query, '&'), name)
    ensures r.Some? ==> exists k :: 0 <= k < |Split(query, '&')| && FirstNamed(Split(query, '&'), name, k)
                                     && r.value == Decode(AfterFirst(Split(query, '&')[k], '='))
  {
    FirstValue(Split(query, '&'), name)
  }

  /** A non-empty piece whose decoded name is `name`. */
  predicate NamedPiece(piece: string, name: string) {
    piece != [] && Decode(BeforeFirst(piece, '=')) == name
  }

  predicate NoPieceNamed(pieces: seq<string>, name: string) {
    forall k :: 0 <= k < |pieces| ==> !NamedPiece(pieces[k], name)
  }

  /** Piece `k` is the first that carries the name. */
  predicate FirstNamed(pieces: seq<string>, name: string, k: int) {
    0 <= k < |pieces| && NamedPiece(pieces[k], name) && forall j :: 0 <= j < k ==> !NamedPiece(pieces[j], name)
  }

  function FirstValue(pieces: seq<string>, name: string): (r: Option<string>)
    ensures r.None? <==> NoPieceNamed(pieces, name)
    ensures r.Some? ==> exists k :: FirstNamed(pieces, name, k) && r.value == Decode(AfterFirst(pieces[k], '='))
  {
    if |pieces| == 0 then None
    else if pieces[0] != [] && Decode(BeforeFirst(pieces[0], '=')) == name then
      assert FirstNamed(pieces, name, 0);
      Some(Decode(AfterFirst(pieces[0], '=')))
    else
      FirstNamedShift(pieces, name);
      FirstValue(pieces[1..], name)
  }

  /** Past a piece without the name, the first piece with it moves one place on. */
  lemma FirstNamedShift(pieces: seq<string>, name: string)
    requires |pieces| > 0 && !NamedPiece(pieces[0], name)
    ensures forall k :: FirstNamed(pieces[1..], name, k) ==> FirstNamed(pieces, name, k + 1)
    ensures NoPieceNamed(pieces, name) <==> NoPieceNamed(pieces[1..], name)
  {
    assert forall k :: 0 <= k < |pieces[1..]| ==> pieces[1..][k] == pieces[k + 1];
    forall k | FirstNamed(pieces[1..], name, k) ensures FirstNamed(pieces, name, k + 1) {
      forall j | 0 <= j < k + 1 ensures !NamedPiece(pieces[j], name) {
        if j > 0 {
          assert pieces[j] == pieces[1..][j - 1];
        }
      }
    }
  }

  /** A query made of one `name=<encoded value>` pair gives the value back. */
  lemma SinglePairRoundTrip(name: string, value: string)
    requires |name| > 0 && forall i :: 0 <= i < |name| ==> Unreserved(name[i])
    ensures QueryGet(name + "=" + Encode(value), name) == Some(value)
  {
    var enc := Encode(value);
    var q := name + "=" + enc;
    assert q == name + ['='] + enc;
    forall i | 0 <= i < |q| ensures q[i] != '&' {
      if i >= |name| + 1 {
        assert q[i] == enc[i - |name| - 1];
      }
    }
    SplitAbsent(q, '&');
    FirstSplit(name, '=', enc);
    EncodeUnreserved(name);
    DecodeEncode(name);
    DecodeEncode(value);
  }
}
