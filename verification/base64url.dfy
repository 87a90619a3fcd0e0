/** The base64url text encoding (the URL- and filename-safe alphabet of
    section 5 of RFC 4648, without padding) that the store uses to keep a
    credential's raw id and public key as JSON-safe strings. */
module Base64Url {

  type Byte = x: int | 0 <= x < 256
  type Bytes = seq<Byte>

  /** A 6-bit group: the value one character of the alphabet stands for. */
  type Sextet = x: int | 0 <= x < 64

  /** Characters of the URL-safe alphabet: A-Z, a-z, 0-9, '-' and '_'. */
  predicate IsAlphabetChar(c: char) {
    ('A' <= c <= 'Z') || ('a' <= c <= 'z') || ('0' <= c <= '9') || c == '-' || c == '_'
  }

  /** The value of an alphabet character (table 2 of RFC 4648, with 62 and 63
      replaced by '-' and '_'). */
  function Value(c: char): Sextet
    requires IsAlphabetChar(c)
  {
    if 'A' <= c <= 'Z' then c as int - 'A' as int
    else if 'a' <= c <= 'z' then c as int - 'a' as int + 26
    else if '0' <= c <= '9' then c as int - '0' as int + 52
    else if c == '-' then 62
    else 63
  }

  /** The alphabet character that stands for `v`. */
  function Char(v: Sextet): (c: char)
    ensures IsAlphabetChar(c) && Value(c) == v
  {
    if v < 26 then ('A' as int + v) as char
    else if v < 52 then ('a' as int + (v - 26)) as char
    else if v < 62 then ('0' as int + (v - 52)) as char
    else if v == 62 then '-'
    else '_'
  }

  /** Splits bytes into sextets, three bytes to four sextets; a final group of
      one or two bytes gives two or three sextets, the unused low bits zero
      (no '=' padding). */
  function EncodeValues(b: Bytes): (v: seq<Sextet>)
    ensures |v| == (4 * |b| + 2) / 3
  {
    if |b| == 0 then []
    else if |b| == 1 then [b[0] / 4, (b[0] % 4) * 16]
    else if |b| == 2 then [b[0] / 4, (b[0] % 4) * 16 + b[1] / 16, (b[1] % 16) * 4]
    else [b[0] / 4, (b[0] % 4) * 16 + b[1] / 16, (b[1] % 16) * 4 + b[2] / 64, b[2] % 64]
         + EncodeValues(b[3..])
  }

  /** Joins sextets back into bytes, four sextets to three bytes; a final group
      of two or three sextets gives one or two bytes, and a lone final sextet,
      which holds less than a byte, gives none. */
  function DecodeValues(v: seq<Sextet>): Bytes
  {
    if |v| < 2 then []
    else if |v| == 2 then [v[0] as int * 4 + v[1] / 16]
    else if |v| == 3 then [v[0] as int * 4 + v[1] / 16, (v[1] % 16) as int * 16 + v[2] / 4]
    else [v[0] as int * 4 + v[1] / 16, (v[1] % 16) as int * 16 + v[2] / 4, (v[2] % 4) as int * 64 + v[3]]
         + DecodeValues(v[4..])
  }

  function Chars(v: seq<Sextet>): (s: string)
    ensures |s| == |v|
  {
    if v == [] then [] else [Char(v[0])] + Chars(v[1..])
  }

  /** The sextets of the alphabet characters of `s`, in order; any other
      character is skipped. */
  function Sextets(s: string): seq<Sextet>
  {
    if s == [] then []
    else (if IsAlphabetChar(s[0]) then [Value(s[0])] else []) + Sextets(s[1..])
  }

  /** `Buffer.from(bytes).toString('base64url')`. */
  function Encode(b: Bytes): (s: string)
    ensures |s| == (4 * |b| + 2) / 3
    ensures forall i :: 0 <= i < |s| ==> IsAlphabetChar(s[i])
  {
    CharsInAlphabet(EncodeValues(b));
    Chars(EncodeValues(b))
  }

  /** `Buffer.from(s, 'base64url')`. */
  function Decode(s: string): Bytes
  {
    DecodeValues(Sextets(s))
  }

  lemma {:induction false} CharsInAlphabet(v: seq<Sextet>)
    ensures forall i :: 0 <= i < |Chars(v)| ==> IsAlphabetChar(Chars(v)[i])
  {
    if v != [] {
      CharsInAlphabet(v[1..]);
      assert forall i :: 1 <= i < |Chars(v)| ==> Chars(v)[i] == Chars(v[1..])[i - 1];
    }
  }

  lemma {:induction false} SextetsOfChars(v: seq<Sextet>)
    ensures Sextets(Chars(v)) == v
  {
    if v != [] {
      var s := Chars(v);
      assert s[0] == Char(v[0]);
      assert s[1..] == Chars(v[1..]);
      SextetsOfChars(v[1..]);
    }
  }

  lemma {:induction false} DecodeEncodeValues(b: Bytes)
    ensures DecodeValues(EncodeValues(b)) == b
  {
    if |b| >= 3 {
      var v := EncodeValues(b);
      var g := [b[0] / 4, (b[0] % 4) * 16 + b[1] / 16, (b[1] % 16) * 4 + b[2] / 64, b[2] % 64];
      assert v == g + EncodeValues(b[3..]);
      assert v[4..] == EncodeValues(b[3..]);
      DecodeEncodeValues(b[3..]);
      assert b == [b[0], b[1], b[2]] + b[3..];
    }
  }

  /** Decoding what was encoded gives the bytes back. */
  lemma {:induction false} DecodeEncode(b: Bytes)
    ensures Decode(Encode(b)) == b
  {
    SextetsOfChars(EncodeValues(b));
    DecodeEncodeValues(b);
  }

  /** Two distinct byte strings never share an encoding, so the stored text
      identifies the credential. */
  lemma EncodeInjective(a: Bytes, b: Bytes)
    ensures Encode(a) == Encode(b) ==> a == b
  {
    DecodeEncode(a);
    DecodeEncode(b);
  }
}
