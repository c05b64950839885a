/**
 * The `application/x-www-form-urlencoded` serializer of the WHATWG URL Standard
 * (section 5.2), which `URLSearchParams.prototype.toString` runs, together with
 * the matching parser restricted to ASCII text, used to show that serializing
 * loses nothing.
 *
 * The serializer percent-encodes every code point of a name or value outside the
 * ASCII alphanumerics and `*`, `-`, `.`, `_` (the complement of the
 * application/x-www-form-urlencoded percent-encode set, section 1.3 of the same
 * Standard), writes a space as `+`, and joins the pairs as `name=value` with `&`.
 */
module FormUrlEncoded {
  import opened Text

  // ---------------------------------------------------------------------------
  // Serializing

  /** Characters written as themselves. */
  predicate IsUnreserved(c: char)
  {
    ('a' <= c <= 'z') || ('A' <= c <= 'Z') || ('0' <= c <= '9') || c == '*' || c == '-' || c == '.' || c == '_'
  }

  /** Characters that can appear in serialized output: the unreserved ones, `+` and `%`. */
  predicate IsOutputChar(c: char)
  {
    IsUnreserved(c) || c == '+' || c == '%'
  }

  predicate IsAscii(s: string)
  {
    forall i :: 0 <= i < |s| ==> s[i] as int < 128
  }

  /** An upper-case hexadecimal digit. */
  function HexDigit(d: nat): (c: char)
    requires d < 16
    ensures IsUnreserved(c) && IsHex(c) && HexValue(c) == d
  {
    if d < 10 then ('0' as int + d) as char else ('A' as int + d - 10) as char
  }

  /** `%XY` for one byte. */
  function PercentByte(b: nat): (r: string)
    requires b < 256
    ensures |r| == 3 && r[0] == '%'
    ensures forall i :: 0 <= i < |r| ==> IsOutputChar(r[i])
  {
    ['%', HexDigit(b / 16), HexDigit(b % 16)]
  }

  /** The UTF-8 encoding of one code point. */
  function Utf8(c: char): (bytes: seq<nat>)
    ensures 1 <= |bytes| <= 4
    ensures forall i :: 0 <= i < |bytes| ==> bytes[i] < 256
    ensures c as int < 128 ==> bytes == [c as int]
  {
    var n := c as int;
    if n < 0x80 then [n]
    else if n < 0x800 then [0xC0 + n / 0x40, 0x80 + n % 0x40]
    else if n < 0x1_0000 then [0xE0 + n / 0x1000, 0x80 + (n / 0x40) % 0x40, 0x80 + n % 0x40]
    else [0xF0 + n / 0x4_0000, 0x80 + (n / 0x1000) % 0x40, 0x80 + (n / 0x40) % 0x40, 0x80 + n % 0x40]
  }

  function PercentBytes(bytes: seq<nat>): (r: string)
    requires forall i :: 0 <= i < |bytes| ==> bytes[i] < 256
    ensures |r| == 3 * |bytes|
    ensures forall i :: 0 <= i < |r| ==> IsOutputChar(r[i])
  {
    if bytes == [] then "" else PercentByte(bytes[0]) + PercentBytes(bytes[1..])
  }

  /** One code point as the serializer writes it. */
  function EncodeChar(c: char): (r: string)
    ensures |r| >= 1
    ensures forall i :: 0 <= i < |r| ==> IsOutputChar(r[i])
  {
    if c == ' ' then "+"
    else if IsUnreserved(c) then [c]
    else PercentBytes(Utf8(c))
  }

  /** A name or a value as the serializer writes it; no `&` or `=` survives. */
  function Encode(s: string): (r: string)
    ensures |r| >= |s|
    ensures forall i :: 0 <= i < |r| ==> IsOutputChar(r[i])
  {
    if s == [] then "" else EncodeChar(s[0]) + Encode(s[1..])
  }

  function PairString(p: (string, string)): (r: string)
  {
    Encode(p.0) + "=" + Encode(p.1)
  }

  /** Each pair as `name=value`, in order. */
  function PairStrings(pairs: seq<(string, string)>): (pieces: seq<string>)
    ensures |pieces| == |pairs|
    ensures forall i :: 0 <= i < |pairs| ==> pieces[i] == PairString(pairs[i])
  {
    if pairs == [] then [] else [PairString(pairs[0])] + PairStrings(pairs[1..])
  }

  /** `URLSearchParams.prototype.toString`: the pairs as `name=value`, in order, separated by `&`. */
  function Serialize(pairs: seq<(string, string)>): (r: string)
    ensures r == "" <==> pairs == []
  {
    Join(PairStrings(pairs), '&')
  }

  // ---------------------------------------------------------------------------
  // Parsing (ASCII)

  predicate IsHex(c: char)
  {
    ('0' <= c <= '9') || ('A' <= c <= 'F') || ('a' <= c <= 'f')
  }

  function HexValue(c: char): (d: nat)
    requires IsHex(c)
    ensures d < 16
  {
    if '0' <= c <= '9' then c as int - '0' as int
    else if 'A' <= c <= 'F' then c as int - 'A' as int + 10
    else c as int - 'a' as int + 10
  }

  /**
   * Percent-decoding with `+` read as a space. A decoded byte becomes the code
   * point of the same value, which is the Standard's UTF-8 decoding for the
   * bytes below 128 that ASCII text produces.
   */
  function Decode(s: string): string
  {
    if s == [] then ""
    else if s[0] == '+' then " " + Decode(s[1..])
    else if s[0] == '%' && |s| >= 3 && IsHex(s[1]) && IsHex(s[2]) then
      [(16 * HexValue(s[1]) + HexValue(s[2])) as char] + Decode(s[3..])
    else [s[0]] + Decode(s[1..])
  }

  /** One `name=value` piece; a piece without `=` is a name with the empty value. */
  function ParsePiece(piece: string): (string, string)
  {
    if '=' in piece then
      var i := IndexOf(piece, '=');
      (Decode(piece[..i]), Decode(piece[i + 1..]))
    else (Decode(piece), "")
  }

  function ParsePieces(pieces: seq<string>): seq<(string, string)>
  {
    if pieces == [] then []
    else if pieces[0] == "" then ParsePieces(pieces[1..])
    else [ParsePiece(pieces[0])] + ParsePieces(pieces[1..])
  }

  /** The form-urlencoded parser (section 5.1 of the WHATWG URL Standard): split on `&`, skip empty pieces, split each at its first `=`. */
  function Parse(q: string): seq<(string, string)>
  {
    ParsePieces(Split(q, '&'))
  }

  lemma {:induction false} EncodeConcat(a: string, b: string)
    ensures Encode(a + b) == Encode(a) + Encode(b)
  {
    if a == [] {
      assert a + b == b;
    } else {
      var ab := a + b;
      assert ab[0] == a[0] && ab[1..] == a[1..] + b;
      EncodeConcat(a[1..], b);
      assert Encode(ab) == EncodeChar(a[0]) + Encode(a[1..] + b);
    }
  }

  /** Text made of unreserved characters is written unchanged. */
  lemma {:induction false} EncodeUnreserved(s: string)
    requires forall i :: 0 <= i < |s| ==> IsUnreserved(s[i])
    ensures Encode(s) == s
  {
    if s != [] {
      EncodeUnreserved(s[1..]);
    }
  }

  /** An ASCII character outside the unreserved set, other than space, is written as `%XY`. */
  lemma EncodeReserved(c: char)
    requires c as int < 128 && c != ' ' && !IsUnreserved(c)
    ensures Encode([c]) == PercentByte(c as int)
  {
    assert [c][1..] == "";
  }

  // ---------------------------------------------------------------------------
  // Serializing loses nothing

  lemma DecodePercentByte(b: nat, t: string)
    requires b < 256
    ensures Decode(PercentByte(b) + t) == [b as char] + Decode(t)
  {
    var s := PercentByte(b) + t;
    assert s[1] == HexDigit(b / 16) && s[2] == HexDigit(b % 16);
    assert s[3..] == t;
  }

  lemma DecodeEncodeChar(c: char, t: string)
    requires c as int < 128
    ensures Decode(EncodeChar(c) + t) == [c] + Decode(t)
  {
    if c == ' ' {
      assert ("+" + t)[1..] == t;
    } else if IsUnreserved(c) {
      assert ([c] + t)[1..] == t;
    } else {
      assert EncodeChar(c) == PercentByte(c as int) + "";
      DecodePercentByte(c as int, t);
    }
  }

  lemma {:induction false} DecodeEncode(s: string)
    requires IsAscii(s)
    ensures Decode(Encode(s)) == s
  {
    if s != [] {
      DecodeEncodeChar(s[0], Encode(s[1..]));
      DecodeEncode(s[1..]);
    }
  }

  lemma NoSeparatorInEncode(s: string)
    ensures '&' !in Encode(s) && '=' !in Encode(s)
  {
    var r := Encode(s);
    assert forall i :: 0 <= i < |r| ==> r[i] != '&' && r[i] != '=' by {
      forall i | 0 <= i < |r| ensures r[i] != '&' && r[i] != '=' {
        assert IsOutputChar(r[i]);
      }
    }
  }

  lemma ParsePairString(p: (string, string))
    requires IsAscii(p.0) && IsAscii(p.1)
    ensures PairString(p) != "" && ParsePiece(PairString(p)) == p
  {
    var piece := PairString(p);
    NoSeparatorInEncode(p.0);
    assert piece[|Encode(p.0)|] == '=';
    IndexOfAfter(Encode(p.0), '=', Encode(p.1));
    assert piece[..|Encode(p.0)|] == Encode(p.0);
    assert piece[|Encode(p.0)| + 1..] == Encode(p.1);
    DecodeEncode(p.0);
    DecodeEncode(p.1);
  }

  lemma {:induction false} ParsePiecesOfPairs(pairs: seq<(string, string)>)
    requires forall k :: 0 <= k < |pairs| ==> IsAscii(pairs[k].0) && IsAscii(pairs[k].1)
    ensures ParsePieces(PairStrings(pairs)) == pairs
  {
    if pairs != [] {
      var pieces := PairStrings(pairs);
      ParsePairString(pairs[0]);
      ParsePiecesOfPairs(pairs[1..]);
      assert pieces[0] == PairString(pairs[0]) && pieces[1..] == PairStrings(pairs[1..]);
    }
  }

  /** Parsing the serialized text gives back the pairs, in order, for ASCII names and values. */
  lemma ParseSerialize(pairs: seq<(string, string)>)
    requires forall k :: 0 <= k < |pairs| ==> IsAscii(pairs[k].0) && IsAscii(pairs[k].1)
    ensures Parse(Serialize(pairs)) == pairs
  {
    var pieces := PairStrings(pairs);
    if pairs == [] {
      assert Serialize(pairs) == "";
      assert Split("", '&') == [""];
    } else {
      forall k | 0 <= k < |pieces| ensures '&' !in pieces[k] {
        NoSeparatorInEncode(pairs[k].0);
        NoSeparatorInEncode(pairs[k].1);
      }
      SplitJoin(pieces, '&');
      ParsePiecesOfPairs(pairs);
    }
  }

  /** Different pair lists of ASCII text never serialize to the same query. */
  lemma SerializeInjective(a: seq<(string, string)>, b: seq<(string, string)>)
    requires forall k :: 0 <= k < |a| ==> IsAscii(a[k].0) && IsAscii(a[k].1)
    requires forall k :: 0 <= k < |b| ==> IsAscii(b[k].0) && IsAscii(b[k].1)
    requires Serialize(a) == Serialize(b)
    ensures a == b
  {
    ParseSerialize(a);
    ParseSerialize(b);
  }
}
