/**
 * The on-disk value codec of Steam's local LevelDB (src/local-db/local-db.ts).
 *
 * A value is a tag byte followed by text: tag 0x00 for UTF-16LE text
 * (section 2.1 of RFC 2781), tag 0x01 for Latin-1 text. The writer hands
 * LevelDB the lowercase base-16 spelling (section 8 of RFC 4648) of
 * `0x00 ++ UTF-16LE(json)` under the 'hex' value encoding; the reader asks
 * LevelDB for the stored bytes as UTF-8 text, drops its first character and
 * parses the rest as JSON. The reader therefore reads Latin-1 values (the
 * ones Steam writes for plain ASCII text) and misreads the UTF-16LE values
 * the writer produces. The JSON layer itself is not modelled here: the
 * functions below stop at the JSON text.
 */
module DbCodec {
  import opened Wrappers

  type Byte = x: int | 0 <= x < 256

  // ---------------------------------------------------------------------------
  // Base 16

  function HexDigit(d: nat): char
    requires d < 16
  {
    "0123456789abcdef"[d]
  }

  predicate IsHexDigit(c: char) {
    '0' <= c <= '9' || 'a' <= c <= 'f'
  }

  function HexValue(c: char): (d: nat)
    requires IsHexDigit(c)
    ensures d < 16
  {
    if c <= '9' then c as int - '0' as int else c as int - 'a' as int + 10
  }

  /** `buffer.toString('hex')` */
  function Hex(bytes: seq<Byte>): (r: string)
    ensures |r| == 2 * |bytes|
    ensures forall i :: 0 <= i < |r| ==> IsHexDigit(r[i])
  {
    if bytes == [] then ""
    else [HexDigit(bytes[0] / 16), HexDigit(bytes[0] % 16)] + Hex(bytes[1..])
  }

  /** What LevelDB's 'hex' value encoding stores for a well-formed lowercase hex string. */
  function HexDecode(s: string): (r: seq<Byte>)
    requires |s| % 2 == 0
    requires forall i :: 0 <= i < |s| ==> IsHexDigit(s[i])
    ensures |r| == |s| / 2
  {
    if s == [] then [] else [HexValue(s[0]) * 16 + HexValue(s[1])] + HexDecode(s[2..])
  }

  /** Decoding the hex spelling of bytes gives the bytes back. */
  lemma HexValueOfDigit(d: nat)
    requires d < 16
    ensures IsHexDigit(HexDigit(d)) && HexValue(HexDigit(d)) == d
  {
    var digits := "0123456789abcdef";
    assert digits[d] as int == if d < 10 then '0' as int + d else 'a' as int + d - 10;
  }

  lemma {:induction false} HexDecodeHex(bytes: seq<Byte>)
    ensures HexDecode(Hex(bytes)) == bytes
  {
    if bytes != [] {
      var h := Hex(bytes);
      var b := bytes[0];
      assert h[2..] == Hex(bytes[1..]);
      HexValueOfDigit(b / 16);
      HexValueOfDigit(b % 16);
      assert HexValue(h[0]) * 16 + HexValue(h[1]) == b;
      HexDecodeHex(bytes[1..]);
    }
  }

  lemma {:induction false} HexAppend(a: seq<Byte>, b: seq<Byte>)
    ensures Hex(a + b) == Hex(a) + Hex(b)
  {
    if a != [] {
      assert (a + b)[0] == a[0];
      assert (a + b)[1..] == a[1..] + b;
      HexAppend(a[1..], b);
    } else {
      assert a + b == b;
    }
  }

  // ---------------------------------------------------------------------------
  // Text encodings

  /** Every character of `text` is one UTF-16 code unit. */
  predicate InBmp(text: string) {
    forall i :: 0 <= i < |text| ==> text[i] as int < 0x1_0000
  }

  predicate IsAscii(text: string) {
    forall i :: 0 <= i < |text| ==> text[i] as int < 0x80
  }

  /** The number of UTF-16 code units of `text`: two for a character above U+FFFF, one otherwise. */
  function Utf16Length(text: string): (n: nat)
    ensures |text| <= n <= 2 * |text|
    ensures InBmp(text) ==> n == |text|
  {
    if text == [] then 0 else (if text[0] as int < 0x1_0000 then 1 else 2) + Utf16Length(text[1..])
  }

  /** The little-endian bytes of one UTF-16 code unit. */
  function UnitBytes(unit: int): (r: seq<Byte>)
    requires 0 <= unit < 0x1_0000
    ensures |r| == 2 && r[0] as int + 256 * (r[1] as int) == unit
  {
    [unit % 256, unit / 256]
  }

  /**
   * The UTF-16LE bytes of one character (section 2.1 of RFC 2781): one code
   * unit below U+10000, otherwise a high surrogate then a low surrogate.
   */
  function CharUtf16Le(c: char): (r: seq<Byte>)
    ensures |r| == if c as int < 0x1_0000 then 2 else 4
  {
    if c as int < 0x1_0000 then UnitBytes(c as int)
    else
      var v := c as int - 0x1_0000;
      UnitBytes(0xD800 + v / 0x400) + UnitBytes(0xDC00 + v % 0x400)
  }

  /** `iconv.encode(text, 'utf16le')`. */
  function Utf16Le(text: string): (r: seq<Byte>)
    ensures |r| == 2 * Utf16Length(text)
  {
    if text == [] then [] else CharUtf16Le(text[0]) + Utf16Le(text[1..])
  }

  /** The Latin-1 bytes of text whose characters are all below 0x100. */
  function Latin1(text: string): (r: seq<Byte>)
    requires forall i :: 0 <= i < |text| ==> text[i] as int < 0x100
    ensures |r| == |text|
    ensures forall i :: 0 <= i < |text| ==> r[i] == text[i] as int
  {
    if text == [] then [] else [text[0] as int] + Latin1(text[1..])
  }

  /** LevelDB's 'utf-8' value decoding, for bytes that are all ASCII. */
  function ReadAsciiUtf8(bytes: seq<Byte>): (r: string)
    requires forall i :: 0 <= i < |bytes| ==> bytes[i] < 0x80
    ensures |r| == |bytes|
    ensures forall i :: 0 <= i < |bytes| ==> r[i] as int == bytes[i]
  {
    if bytes == [] then "" else [bytes[0] as char] + ReadAsciiUtf8(bytes[1..])
  }

  // ---------------------------------------------------------------------------
  // The codec as written

  /** `encodeDbValue`: the tag "00" and the hex of the UTF-16LE bytes of the JSON text. */
  function EncodeDbValue(jsonText: string): (r: string)
    ensures |r| == 2 + 4 * Utf16Length(jsonText)
    ensures r[..2] == "00" && |r| % 2 == 0
    ensures forall i :: 0 <= i < |r| ==> IsHexDigit(r[i])
  {
    var h := Hex(Utf16Le(jsonText));
    assert forall i :: 2 <= i < 2 + |h| ==> ("00" + h)[i] == h[i - 2];
    "00" + h
  }

  /** The bytes LevelDB holds after `put(key, EncodeDbValue(jsonText))` under the 'hex' encoding. */
  lemma StoredBytesOfEncoded(jsonText: string)
    ensures HexDecode(EncodeDbValue(jsonText)) == [0] + Utf16Le(jsonText)
  {
    HexAppend([0], Utf16Le(jsonText));
    assert Hex([0]) == "00";
    HexDecodeHex([0] + Utf16Le(jsonText));
  }

  /** `decodeDbValue` up to `JSON.parse`: the text handed to the parser is `raw.slice(1)`. */
  function DecodeDbValueText(raw: string): (r: string)
    ensures |raw| > 0 ==> |r| == |raw| - 1 && r == raw[1..]
    ensures |raw| == 0 ==> r == ""
  {
    if raw == [] then "" else raw[1..]
  }

  /** Each character of `text` followed by a NUL: what the UTF-8 reader makes of UTF-16LE ASCII text. */
  function WithNuls(text: string): (r: string)
    ensures |r| == 2 * |text|
  {
    if text == [] then "" else [text[0], 0 as char] + WithNuls(text[1..])
  }

  /** The UTF-8 reader reads two ASCII bytes followed by more ASCII bytes one byte per character. */
  lemma ReadAsciiPair(b: Byte, rest: seq<Byte>)
    requires b < 0x80
    requires forall i :: 0 <= i < |rest| ==> rest[i] < 0x80
    ensures forall i :: 0 <= i < |[b, 0] + rest| ==> ([b, 0] + rest)[i] < 0x80
    ensures ReadAsciiUtf8([b, 0] + rest) == [b as char, 0 as char] + ReadAsciiUtf8(rest)
  {
    var s := [b, 0] + rest;
    assert s[1..] == [0] + rest && s[1..][1..] == rest;
  }

  lemma {:induction false} Utf16LeOfAscii(text: string)
    requires IsAscii(text)
    ensures InBmp(text)
    ensures forall i :: 0 <= i < |Utf16Le(text)| ==> Utf16Le(text)[i] < 0x80
    ensures ReadAsciiUtf8(Utf16Le(text)) == WithNuls(text)
  {
    if text != [] {
      Utf16LeOfAscii(text[1..]);
      var c := text[0];
      assert CharUtf16Le(c) == [c as int, 0];
      ReadAsciiPair(c as int, Utf16Le(text[1..]));
      assert (c as int) as char == c;
    }
  }

  /**
   * The as-written reader reads a Steam Latin-1 value (tag 0x01) of ASCII text correctly.
   */
  lemma ReadsLatin1Value(jsonText: string)
    requires IsAscii(jsonText)
    ensures DecodeDbValueText(ReadAsciiUtf8([1] + Latin1(jsonText))) == jsonText
  {
  }

  /**
   * The as-written reader does not get back the JSON text the writer stored: for
   * any non-empty ASCII text it hands `JSON.parse` the text with a NUL after
   * every character.
   */
  lemma MisreadsOwnValue(jsonText: string)
    requires IsAscii(jsonText) && jsonText != ""
    ensures InBmp(jsonText)
    ensures var stored := HexDecode(EncodeDbValue(jsonText));
      && (forall i :: 0 <= i < |stored| ==> stored[i] < 0x80)
      && DecodeDbValueText(ReadAsciiUtf8(stored)) == WithNuls(jsonText)
      && DecodeDbValueText(ReadAsciiUtf8(stored)) != jsonText
  {
    Utf16LeOfAscii(jsonText);
    StoredBytesOfEncoded(jsonText);
    var stored := HexDecode(EncodeDbValue(jsonText));
    assert ReadAsciiUtf8(stored)[1..] == ReadAsciiUtf8(Utf16Le(jsonText));
  }

  // ---------------------------------------------------------------------------
  // The codec with the tag read as a byte

  /**
   * UTF-16LE decoding: a high surrogate followed by a low surrogate is one
   * character above U+FFFF; `None` for an odd byte count or a lone surrogate.
   */
  function Utf16LeDecode(bytes: seq<Byte>): (r: Option<string>)
    decreases |bytes|
  {
    if bytes == [] then Some("")
    else if |bytes| == 1 then None
    else
      var unit := bytes[0] as int + 256 * (bytes[1] as int);
      if 0xDC00 <= unit < 0xE000 then None
      else if 0xD800 <= unit < 0xDC00 then
        if |bytes| < 4 then None
        else
          var low := bytes[2] as int + 256 * (bytes[3] as int);
          if !(0xDC00 <= low < 0xE000) then None
          else match Utf16LeDecode(bytes[4..])
            case None => None
            case Some(rest) => Some([(0x1_0000 + (unit - 0xD800) * 0x400 + (low - 0xDC00)) as char] + rest)
      else match Utf16LeDecode(bytes[2..])
        case None => None
        case Some(rest) => Some([unit as char] + rest)
  }

  function Latin1Decode(bytes: seq<Byte>): (r: string)
    ensures |r| == |bytes|
  {
    if bytes == [] then "" else [bytes[0] as char] + Latin1Decode(bytes[1..])
  }

  /** Reads a stored value by its tag byte: 0x00 UTF-16LE, 0x01 Latin-1. */
  function DecodeStoredValue(bytes: seq<Byte>): (r: Option<string>)
    ensures bytes == [] ==> r == None
    ensures bytes != [] && bytes[0] > 1 ==> r == None
  {
    if bytes == [] then None
    else if bytes[0] == 0 then Utf16LeDecode(bytes[1..])
    else if bytes[0] == 1 then Some(Latin1Decode(bytes[1..]))
    else None
  }

  /** Decoding the bytes of one character followed by more bytes reads that character first. */
  lemma CharRoundTrip(c: char, more: seq<Byte>)
    ensures Utf16LeDecode(CharUtf16Le(c) + more) ==
      match Utf16LeDecode(more) case None => None case Some(rest) => Some([c] + rest)
  {
    var b := CharUtf16Le(c) + more;
    if c as int < 0x1_0000 {
      assert b[2..] == more;
    } else {
      var v := c as int - 0x1_0000;
      assert b[4..] == more;
      assert b[0] as int + 256 * (b[1] as int) == 0xD800 + v / 0x400;
      assert b[2] as int + 256 * (b[3] as int) == 0xDC00 + v % 0x400;
    }
  }

  lemma {:induction false} Utf16LeRoundTrip(text: string)
    ensures Utf16LeDecode(Utf16Le(text)) == Some(text)
  {
    if text != [] {
      Utf16LeRoundTrip(text[1..]);
      CharRoundTrip(text[0], Utf16Le(text[1..]));
      assert [text[0]] + text[1..] == text;
    }
  }

  /** The two bytes of a code unit are its little-endian spelling. */
  lemma UnitBytesOf(b0: Byte, b1: Byte)
    ensures UnitBytes(b0 as int + 256 * (b1 as int)) == [b0, b1]
  {
  }

  /** A surrogate pair is the encoding of the character it combines to. */
  lemma PairBytesOf(b0: Byte, b1: Byte, b2: Byte, b3: Byte)
    requires 0xD800 <= b0 as int + 256 * (b1 as int) < 0xDC00
    requires 0xDC00 <= b2 as int + 256 * (b3 as int) < 0xE000
    ensures var hi, lo := b0 as int + 256 * (b1 as int), b2 as int + 256 * (b3 as int);
      CharUtf16Le((0x1_0000 + (hi - 0xD800) * 0x400 + (lo - 0xDC00)) as char) == [b0, b1, b2, b3]
  {
    var hi, lo := b0 as int + 256 * (b1 as int), b2 as int + 256 * (b3 as int);
    var v := (hi - 0xD800) * 0x400 + (lo - 0xDC00);
    assert v / 0x400 == hi - 0xD800 && v % 0x400 == lo - 0xDC00;
    UnitBytesOf(b0, b1);
    UnitBytesOf(b2, b3);
  }

  /** The first character UTF-16LE decoding reads is spelled by the first two or four bytes. */
  lemma DecodeFirst(bytes: seq<Byte>) returns (k: nat)
    requires bytes != [] && Utf16LeDecode(bytes).Some?
    ensures k <= |bytes| && Utf16LeDecode(bytes[k..]).Some?
    ensures Utf16LeDecode(bytes).value == [Utf16LeDecode(bytes).value[0]] + Utf16LeDecode(bytes[k..]).value
    ensures CharUtf16Le(Utf16LeDecode(bytes).value[0]) == bytes[..k]
  {
    var unit := bytes[0] as int + 256 * (bytes[1] as int);
    if 0xD800 <= unit < 0xDC00 {
      k := 4;
      PairBytesOf(bytes[0], bytes[1], bytes[2], bytes[3]);
      assert bytes[..4] == [bytes[0], bytes[1], bytes[2], bytes[3]];
    } else {
      k := 2;
      UnitBytesOf(bytes[0], bytes[1]);
      assert bytes[..2] == [bytes[0], bytes[1]];
    }
  }

  /** Conversely, whatever UTF-16LE decoding accepts is the encoding of what it returns. */
  lemma {:induction false} Utf16LeDecodeExact(bytes: seq<Byte>)
    requires Utf16LeDecode(bytes).Some?
    ensures Utf16Le(Utf16LeDecode(bytes).value) == bytes
    decreases |bytes|
  {
    if bytes != [] {
      var text := Utf16LeDecode(bytes).value;
      var k := DecodeFirst(bytes);
      Utf16LeDecodeExact(bytes[k..]);
      assert text[1..] == Utf16LeDecode(bytes[k..]).value;
      assert bytes == bytes[..k] + bytes[k..];
    }
  }

  lemma {:induction false} Latin1RoundTrip(text: string)
    requires forall i :: 0 <= i < |text| ==> text[i] as int < 0x100
    ensures Latin1Decode(Latin1(text)) == text
  {
    if text != [] {
      Latin1RoundTrip(text[1..]);
    }
  }

  /** The tag-aware reader gets back exactly the JSON text `encodeDbValue` stored. */
  lemma DecodeStoredEncoded(jsonText: string)
    ensures DecodeStoredValue(HexDecode(EncodeDbValue(jsonText))) == Some(jsonText)
  {
    StoredBytesOfEncoded(jsonText);
    Utf16LeRoundTrip(jsonText);
    assert ([0] + Utf16Le(jsonText))[1..] == Utf16Le(jsonText);
  }

  /**
   * Conversely, a value the tag-aware reader accepts is exactly what the writer
   * stores for the text read (tag 0x00), or Steam's Latin-1 value of it (tag 0x01).
   */
  lemma DecodeStoredExact(bytes: seq<Byte>)
    requires DecodeStoredValue(bytes).Some?
    ensures bytes[0] == 0 ==> bytes == HexDecode(EncodeDbValue(DecodeStoredValue(bytes).value))
    ensures bytes[0] == 1 ==> forall i :: 0 <= i < |DecodeStoredValue(bytes).value| ==> DecodeStoredValue(bytes).value[i] as int < 0x100
    ensures bytes[0] == 1 ==> bytes == [1] + Latin1(DecodeStoredValue(bytes).value)
  {
    var text := DecodeStoredValue(bytes).value;
    if bytes[0] == 0 {
      Utf16LeDecodeExact(bytes[1..]);
      StoredBytesOfEncoded(text);
      assert bytes == [0] + bytes[1..];
    } else {
      Latin1DecodeExact(bytes[1..]);
      assert bytes == [1] + bytes[1..];
    }
  }

  lemma {:induction false} Latin1DecodeExact(bytes: seq<Byte>)
    ensures forall i :: 0 <= i < |Latin1Decode(bytes)| ==> Latin1Decode(bytes)[i] as int < 0x100
    ensures Latin1(Latin1Decode(bytes)) == bytes
  {
    if bytes != [] {
      Latin1DecodeExact(bytes[1..]);
    }
  }

  /** The tag-aware reader still reads Steam's Latin-1 values. */
  lemma DecodeStoredLatin1(jsonText: string)
    requires forall i :: 0 <= i < |jsonText| ==> jsonText[i] as int < 0x100
    ensures DecodeStoredValue([1] + Latin1(jsonText)) == Some(jsonText)
  {
    Latin1RoundTrip(jsonText);
    assert ([1] + Latin1(jsonText))[1..] == Latin1(jsonText);
  }
}
