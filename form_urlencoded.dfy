/**
 * The application/x-www-form-urlencoded serializer of the WHATWG URL Standard
 * (section 5.2), which `URLSearchParams.prototype.toString()` uses, and the
 * matching parser as its inverse.
 *
 * Each name and value is encoded as UTF-8; the bytes `*`, `-`, `.`, `_`,
 * ASCII digits and ASCII letters are written as they are, the space byte
 * becomes `+`, and every other byte becomes `%` and two upper-case hex digits.
 * Pairs are written `name=value` and joined with `&`.
 */
module FormUrlEncoded {
  import opened Wrappers

  newtype byte = x: int | 0 <= x < 256

  type Pair = (string, string)

  // ---------------------------------------------------------------- UTF-8

  /** The UTF-8 encoding of one Unicode scalar value. */
  function Utf8(c: char): (bs: seq<byte>)
    ensures 1 <= |bs| <= 4
    ensures |bs| == 1 <==> c as int < 0x80
    ensures |bs| == 1 ==> bs[0] as int == c as int
  {
    var v := c as int;
    if v < 0x80 then [v as byte]
    else if v < 0x800 then [(0xC0 + v / 64) as byte, (0x80 + v % 64) as byte]
    else if v < 0x10000 then
      [(0xE0 + v / 4096) as byte, (0x80 + v / 64 % 64) as byte, (0x80 + v % 64) as byte]
    else
      [(0xF0 + v / 0x40000) as byte, (0x80 + v / 4096 % 64) as byte,
       (0x80 + v / 64 % 64) as byte, (0x80 + v % 64) as byte]
  }

  function Utf8Encode(s: string): seq<byte>
    decreases |s|
  {
    if s == [] then [] else Utf8(s[0]) + Utf8Encode(s[1..])
  }

  /** The length of the sequence a leading byte announces; 0 for a byte that cannot lead. */
  function Utf8Length(b: byte): (n: nat)
    ensures n <= 4
  {
    if b < 0x80 then 1
    else if 0xC2 <= b < 0xE0 then 2
    else if 0xE0 <= b < 0xF0 then 3
    else if 0xF0 <= b < 0xF5 then 4
    else 0
  }

  predicate IsContinuation(b: byte) {
    0x80 <= b < 0xC0
  }

  /** The scalar value one complete UTF-8 sequence stands for, if it is well formed. */
  function DecodeScalar(bs: seq<byte>): Option<char>
    requires 1 <= |bs| <= 4
  {
    var v :=
      if |bs| == 1 then bs[0] as int
      else if |bs| == 2 then (bs[0] as int - 0xC0) * 64 + (bs[1] as int - 0x80)
      else if |bs| == 3 then
        (bs[0] as int - 0xE0) * 4096 + (bs[1] as int - 0x80) * 64 + (bs[2] as int - 0x80)
      else
        (bs[0] as int - 0xF0) * 0x40000 + (bs[1] as int - 0x80) * 4096
        + (bs[2] as int - 0x80) * 64 + (bs[3] as int - 0x80);
    var least := if |bs| == 1 then 0 else if |bs| == 2 then 0x80 else if |bs| == 3 then 0x800 else 0x10000;
    if (forall i :: 1 <= i < |bs| ==> IsContinuation(bs[i]))
       && least <= v && (v < 0xD800 || 0xE000 <= v < 0x11_0000)
    then Some(v as char)
    else None
  }

  /** Decodes a byte sequence as UTF-8; `None` when it is not well formed. */
  function Utf8Decode(bs: seq<byte>): Option<string>
    decreases |bs|
  {
    if bs == [] then Some([])
    else
      var n := Utf8Length(bs[0]);
      if n == 0 || |bs| < n then None
      else match (DecodeScalar(bs[..n]), Utf8Decode(bs[n..]))
        case (Some(c), Some(rest)) => Some([c] + rest)
        case _ => None
  }

  lemma Utf8ScalarRoundTrip(c: char)
    ensures Utf8Length(Utf8(c)[0]) == |Utf8(c)|
    ensures DecodeScalar(Utf8(c)) == Some(c)
  {
    var v := c as int;
    if v < 0x80 {
    } else if v < 0x800 {
      Utf8TwoBytes(c);
    } else if v < 0x10000 {
      Utf8ThreeBytes(c);
    } else {
      Utf8FourBytes(c);
    }
  }

  lemma Utf8TwoBytes(c: char)
    requires 0x80 <= c as int < 0x800
    ensures Utf8Length(Utf8(c)[0]) == 2
    ensures DecodeScalar(Utf8(c)) == Some(c)
  {
    var v := c as int;
    var bs := Utf8(c);
    var q, r := v / 64, v % 64;
    assert v == q * 64 + r && 2 <= q < 32;
    assert bs[0] as int == 0xC0 + q && bs[1] as int == 0x80 + r;
  }

  lemma Utf8ThreeBytes(c: char)
    requires 0x800 <= c as int < 0x10000
    ensures Utf8Length(Utf8(c)[0]) == 3
    ensures DecodeScalar(Utf8(c)) == Some(c)
  {
    var v := c as int;
    var bs := Utf8(c);
    var q, m, r := v / 4096, v / 64 % 64, v % 64;
    assert v / 64 == q * 64 + m;
    assert v == q * 4096 + m * 64 + r && 0 <= q < 16;
    assert bs[0] as int == 0xE0 + q && bs[1] as int == 0x80 + m && bs[2] as int == 0x80 + r;
  }

  lemma Utf8FourBytes(c: char)
    requires 0x10000 <= c as int
    ensures Utf8Length(Utf8(c)[0]) == 4
    ensures DecodeScalar(Utf8(c)) == Some(c)
  {
    var v := c as int;
    assert v < 0x11_0000;
    var bs := Utf8(c);
    var q, h, m, r := v / 0x40000, v / 4096 % 64, v / 64 % 64, v % 64;
    assert v / 4096 == q * 64 + h;
    assert v / 64 == (v / 4096) * 64 + m;
    assert v == q * 0x40000 + h * 4096 + m * 64 + r && 0 <= q < 5;
    assert bs[0] as int == 0xF0 + q && bs[1] as int == 0x80 + h;
    assert bs[2] as int == 0x80 + m && bs[3] as int == 0x80 + r;
  }

  /** UTF-8 decoding undoes UTF-8 encoding. */
  lemma {:induction false} Utf8RoundTrip(s: string)
    ensures Utf8Decode(Utf8Encode(s)) == Some(s)
    decreases |s|
  {
    if s != [] {
      var head := Utf8(s[0]);
      var bs := Utf8Encode(s);
      Utf8ScalarRoundTrip(s[0]);
      Utf8RoundTrip(s[1..]);
      assert bs[..|head|] == head;
      assert bs[|head|..] == Utf8Encode(s[1..]);
      assert [s[0]] + s[1..] == s;
    }
  }

  // ---------------------------------------------------- percent-encoding

  /** The bytes the serializer writes unchanged: `*`, `-`, `.`, `_`, digits and letters. */
  predicate IsUnreserved(b: byte) {
    b == 0x2A || b == 0x2D || b == 0x2E || 0x30 <= b <= 0x39
    || 0x41 <= b <= 0x5A || b == 0x5F || 0x61 <= b <= 0x7A
  }

  predicate IsHexDigit(c: char) {
    '0' <= c <= '9' || 'A' <= c <= 'F' || 'a' <= c <= 'f'
  }

  function HexDigit(d: int): (c: char)
    requires 0 <= d < 16
    ensures IsHexDigit(c)
  {
    if d < 10 then ('0' as int + d) as char else ('A' as int + d - 10) as char
  }

  function HexValue(c: char): (d: int)
    requires IsHexDigit(c)
    ensures 0 <= d < 16
  {
    if c <= '9' then c as int - '0' as int
    else if c <= 'F' then c as int - 'A' as int + 10
    else c as int - 'a' as int + 10
  }

  /** A character that can appear in the serializer's output. */
  predicate IsOutputChar(c: char) {
    (c as int < 0x80 && IsUnreserved(c as int as byte)) || c == '+' || c == '%'
  }

  function EncodeByte(b: byte): (t: string)
    ensures 1 <= |t| <= 3
  {
    if b == 0x20 then "+"
    else if IsUnreserved(b) then [b as int as char]
    else ['%', HexDigit(b as int / 16), HexDigit(b as int % 16)]
  }

  function EncodeBytes(bs: seq<byte>): string
    decreases |bs|
  {
    if bs == [] then "" else EncodeByte(bs[0]) + EncodeBytes(bs[1..])
  }

  /** One name or value as the serializer writes it. */
  function EncodeComponent(s: string): string {
    EncodeBytes(Utf8Encode(s))
  }

  /** Every character written for one byte is unreserved, `+` or `%`. */
  lemma EncodeByteOutput(b: byte)
    ensures forall i :: 0 <= i < |EncodeByte(b)| ==> IsOutputChar(EncodeByte(b)[i])
  {
  }

  lemma {:induction false} EncodeBytesOutput(bs: seq<byte>)
    ensures forall i :: 0 <= i < |EncodeBytes(bs)| ==> IsOutputChar(EncodeBytes(bs)[i])
    decreases |bs|
  {
    if bs != [] {
      var head, tail := EncodeByte(bs[0]), EncodeBytes(bs[1..]);
      EncodeByteOutput(bs[0]);
      EncodeBytesOutput(bs[1..]);
      assert EncodeBytes(bs) == head + tail;
      forall i | 0 <= i < |head + tail|
        ensures IsOutputChar((head + tail)[i])
      {
        if i >= |head| {
          assert (head + tail)[i] == tail[i - |head|];
        }
      }
    }
  }

  /**
   * The encoding of a name or value holds only unreserved characters, `+`
   * and `%`: never `&` or `=`, so the separators around it stay unambiguous,
   * and never a space.
   */
  lemma EncodeComponentOutput(s: string)
    ensures forall i :: 0 <= i < |EncodeComponent(s)| ==> IsOutputChar(EncodeComponent(s)[i])
    ensures '&' !in EncodeComponent(s) && '=' !in EncodeComponent(s) && ' ' !in EncodeComponent(s)
  {
    EncodeBytesOutput(Utf8Encode(s));
  }

  function SerializePair(p: Pair): string {
    EncodeComponent(p.0) + "=" + EncodeComponent(p.1)
  }

  /** `URLSearchParams.prototype.toString()` for the list `ps`. */
  function Serialize(ps: seq<Pair>): string
    decreases |ps|
  {
    if ps == [] then ""
    else if |ps| == 1 then SerializePair(ps[0])
    else SerializePair(ps[0]) + "&" + Serialize(ps[1..])
  }

  /** The first two pairs of a longer list, then the rest after an `&`. */
  lemma SerializeFirstTwo(ps: seq<Pair>)
    requires 3 <= |ps|
    ensures Serialize(ps) == SerializePair(ps[0]) + "&" + SerializePair(ps[1]) + "&" + Serialize(ps[2..])
  {
    assert ps[1..][1..] == ps[2..];
    JoinAssoc(SerializePair(ps[0]), SerializePair(ps[1]), Serialize(ps[2..]));
  }

  /** Regrouping of `&`-joined texts. */
  lemma JoinAssoc(a: string, b: string, c: string)
    ensures a + "&" + (b + "&" + c) == a + "&" + b + "&" + c
  {
  }

  // --------------------------------------------------------------- parser

  /** The index of the first `c` in `s`, or `|s|` when there is none. */
  function IndexOf(s: string, c: char): (i: nat)
    ensures i <= |s|
    ensures i < |s| ==> s[i] == c
    ensures forall k :: 0 <= k < i ==> s[k] != c
    decreases |s|
  {
    if s == [] || s[0] == c then 0 else 1 + IndexOf(s[1..], c)
  }

  /** `+` becomes a space byte, `%` and two hex digits the byte they spell, anything else its UTF-8 bytes. */
  function PercentDecode(t: string): seq<byte>
    decreases |t|
  {
    if t == [] then []
    else if t[0] == '+' then [0x20 as byte] + PercentDecode(t[1..])
    else if t[0] == '%' && 3 <= |t| && IsHexDigit(t[1]) && IsHexDigit(t[2]) then
      [(HexValue(t[1]) * 16 + HexValue(t[2])) as byte] + PercentDecode(t[3..])
    else Utf8(t[0]) + PercentDecode(t[1..])
  }

  function DecodeComponent(t: string): Option<string> {
    Utf8Decode(PercentDecode(t))
  }

  /** Splits one `name=value` sequence at its first `=`; without one, the value is empty. */
  function ParsePair(seg: string): Option<Pair> {
    var i := IndexOf(seg, '=');
    var value := if i < |seg| then seg[i + 1..] else "";
    match (DecodeComponent(seg[..i]), DecodeComponent(value))
    case (Some(n), Some(v)) => Some((n, v))
    case _ => None
  }

  /** The form-urlencoded parser: split on `&`, skip empty sequences, decode each pair. */
  function ParseQuery(s: string): Option<seq<Pair>>
    decreases |s|
  {
    if s == [] then Some([])
    else
      var i := IndexOf(s, '&');
      var rest := if i < |s| then s[i + 1..] else "";
      match ParseQuery(rest)
      case None => None
      case Some(tail) =>
        if i == 0 then Some(tail)
        else match ParsePair(s[..i])
          case None => None
          case Some(p) => Some([p] + tail)
  }

  // ------------------------------------------------------------ round trip

  lemma PercentDecodeByte(b: byte, rest: string)
    ensures PercentDecode(EncodeByte(b) + rest) == [b] + PercentDecode(rest)
  {
    var t := EncodeByte(b) + rest;
    if b == 0x20 {
      assert t[1..] == rest;
    } else if IsUnreserved(b) {
      assert t[1..] == rest;
      assert t[0] != '+' && t[0] != '%';
    } else {
      var hi, lo := b as int / 16, b as int % 16;
      assert t[3..] == rest;
      assert HexValue(t[1]) == hi && HexValue(t[2]) == lo;
    }
  }

  lemma {:induction false} PercentDecodeBytes(bs: seq<byte>)
    ensures PercentDecode(EncodeBytes(bs)) == bs
    decreases |bs|
  {
    if bs != [] {
      PercentDecodeByte(bs[0], EncodeBytes(bs[1..]));
      PercentDecodeBytes(bs[1..]);
    }
  }

  /** Every name and value is recovered from its encoding. */
  lemma ComponentRoundTrip(s: string)
    ensures DecodeComponent(EncodeComponent(s)) == Some(s)
  {
    PercentDecodeBytes(Utf8Encode(s));
    Utf8RoundTrip(s);
  }

  lemma IndexOfAfterPrefix(a: string, c: char, b: string)
    requires c !in a
    ensures IndexOf(a + [c] + b, c) == |a|
    ensures IndexOf(a, c) == |a|
  {
    var s := a + [c] + b;
    assert s[|a|] == c;
    assert forall k :: 0 <= k < |a| ==> s[k] == a[k];
  }

  lemma PairRoundTrip(p: Pair)
    ensures ParsePair(SerializePair(p)) == Some(p)
  {
    var name, value := EncodeComponent(p.0), EncodeComponent(p.1);
    var seg := SerializePair(p);
    EncodeComponentOutput(p.0);
    IndexOfAfterPrefix(name, '=', value);
    assert seg[..|name|] == name;
    assert seg[|name| + 1..] == value;
    ComponentRoundTrip(p.0);
    ComponentRoundTrip(p.1);
  }

  /** A serialized pair is never empty and holds no `&`. */
  lemma SerializePairText(p: Pair)
    ensures SerializePair(p) != [] && '&' !in SerializePair(p)
  {
    EncodeComponentOutput(p.0);
    EncodeComponentOutput(p.1);
    var t := SerializePair(p);
    assert t[|EncodeComponent(p.0)|] == '=';
  }

  /** The parser on a last non-empty sequence without `&`. */
  lemma ParseQueryLast(seg: string, p: Pair)
    requires seg != [] && '&' !in seg && ParsePair(seg) == Some(p)
    ensures ParseQuery(seg) == Some([p])
  {
    IndexOfAfterPrefix(seg, '&', "");
    assert seg[..|seg|] == seg;
    assert [p] + [] == [p];
  }

  /** The parser on a non-empty sequence without `&`, then `&`, then the rest. */
  lemma ParseQueryCons(seg: string, rest: string, p: Pair, tail: seq<Pair>)
    requires seg != [] && '&' !in seg && ParsePair(seg) == Some(p)
    requires ParseQuery(rest) == Some(tail)
    ensures ParseQuery(seg + "&" + rest) == Some([p] + tail)
  {
    var s := seg + "&" + rest;
    IndexOfAfterPrefix(seg, '&', rest);
    assert s[..|seg|] == seg;
    assert s[|seg| + 1..] == rest;
  }

  /** Parsing a serialized list gives back the same pairs in the same order. */
  lemma {:induction false} SerializeRoundTrip(ps: seq<Pair>)
    ensures ParseQuery(Serialize(ps)) == Some(ps)
    decreases |ps|
  {
    if ps != [] {
      SerializePairText(ps[0]);
      PairRoundTrip(ps[0]);
      if |ps| == 1 {
        ParseQueryLast(SerializePair(ps[0]), ps[0]);
        assert [ps[0]] == ps;
      } else {
        SerializeRoundTrip(ps[1..]);
        ParseQueryCons(SerializePair(ps[0]), Serialize(ps[1..]), ps[0], ps[1..]);
        assert [ps[0]] + ps[1..] == ps;
      }
    }
  }

  /** Two lists with the same serialization are equal. */
  lemma SerializeInjective(ps: seq<Pair>, qs: seq<Pair>)
    requires Serialize(ps) == Serialize(qs)
    ensures ps == qs
  {
    SerializeRoundTrip(ps);
    SerializeRoundTrip(qs);
  }

  // ----------------------------------------------------- encoding pieces

  lemma {:induction false} Utf8EncodeConcat(a: string, b: string)
    ensures Utf8Encode(a + b) == Utf8Encode(a) + Utf8Encode(b)
    decreases |a|
  {
    if a == [] {
      assert a + b == b;
    } else {
      assert (a + b)[0] == a[0] && (a + b)[1..] == a[1..] + b;
      Utf8EncodeConcat(a[1..], b);
    }
  }

  lemma {:induction false} EncodeBytesConcat(a: seq<byte>, b: seq<byte>)
    ensures EncodeBytes(a + b) == EncodeBytes(a) + EncodeBytes(b)
    decreases |a|
  {
    if a == [] {
      assert a + b == b;
    } else {
      assert (a + b)[0] == a[0] && (a + b)[1..] == a[1..] + b;
      EncodeBytesConcat(a[1..], b);
    }
  }

  /** Names and values are encoded character by character. */
  lemma EncodeComponentConcat(a: string, b: string)
    ensures EncodeComponent(a + b) == EncodeComponent(a) + EncodeComponent(b)
  {
    Utf8EncodeConcat(a, b);
    EncodeBytesConcat(Utf8Encode(a), Utf8Encode(b));
  }

  /** A text made only of `*`, `-`, `.`, `_`, ASCII digits and letters is written unchanged. */
  lemma {:induction false} UnreservedUnchanged(s: string)
    requires forall i :: 0 <= i < |s| ==> s[i] as int < 0x80 && IsUnreserved(s[i] as int as byte)
    ensures EncodeComponent(s) == s
    decreases |s|
  {
    if s != [] {
      UnreservedUnchanged(s[1..]);
      assert Utf8Encode(s) == [s[0] as int as byte] + Utf8Encode(s[1..]);
      assert EncodeBytes(Utf8Encode(s)) == [s[0]] + EncodeBytes(Utf8Encode(s[1..]));
    }
  }

  /** An ASCII character is encoded as its one byte. */
  lemma EncodeAsciiChar(c: char)
    requires c as int < 0x80
    ensures EncodeComponent([c]) == EncodeByte(c as int as byte)
  {
    assert [c][1..] == [];
    assert Utf8Encode([c]) == [c as int as byte];
    assert [c as int as byte][1..] == [];
    assert EncodeBytes([c as int as byte]) == EncodeByte(c as int as byte) + "";
  }

  /** `:` is percent-encoded as `%3A`. */
  lemma EncodeColon()
    ensures EncodeComponent(":") == "%3A"
  {
    EncodeAsciiChar(':');
    assert HexDigit(3) == '3' && HexDigit(10) == 'A';
  }

  /** `/` is percent-encoded as `%2F`. */
  lemma EncodeSlash()
    ensures EncodeComponent("/") == "%2F"
  {
    EncodeAsciiChar('/');
    assert HexDigit(2) == '2' && HexDigit(15) == 'F';
  }

  /** The separator after a URL scheme is percent-encoded character by character. */
  lemma EncodeSchemeSeparator()
    ensures EncodeComponent("://") == "%3A%2F%2F"
  {
    EncodeColon();
    EncodeSlash();
    EncodeComponentConcat(":", "/");
    assert ":" + "/" == ":/";
    EncodeComponentConcat(":/", "/");
    assert ":/" + "/" == "://";
  }

  /** The scheme `https://` is percent-encoded as `https%3A%2F%2F`. */
  lemma EncodeHttpsScheme()
    ensures EncodeComponent("https://") == "https%3A%2F%2F"
  {
    var scheme, sep := "https", "://";
    assert scheme + sep == "https://";
    assert scheme + "%3A%2F%2F" == "https%3A%2F%2F";
    UnreservedUnchanged(scheme);
    EncodeSchemeSeparator();
    EncodeComponentConcat(scheme, sep);
  }

  /** A target URL with a scheme is percent-encoded: `:` and `/` become `%3A` and `%2F`. */
  lemma TargetUrlEncodingExample()
    ensures EncodeComponent("https://google.com") == "https%3A%2F%2Fgoogle.com"
  {
    var scheme, host := "https://", "google.com";
    assert scheme + host == "https://google.com";
    assert "https%3A%2F%2F" + host == "https%3A%2F%2Fgoogle.com";
    UnreservedUnchanged(host);
    EncodeHttpsScheme();
    EncodeComponentConcat(scheme, host);
  }
}
