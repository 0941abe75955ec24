/** Base64 with the standard alphabet and `=` padding (section 4 of RFC 4648),
    the encoding `general_purpose::STANDARD.encode` gives the preview and the
    thumbnail. The decoder is the partner that shows nothing is lost. */
module Base64 {
  import opened Wrappers
  import opened Models

  /** A 6-bit value: one encoded character. */
  type Sextet = x: int | 0 <= x < 64

  /** The character of the standard alphabet for `v` (Table 1 of RFC 4648). */
  function Digit(v: Sextet): (c: char)
    ensures c != '='
  {
    if v < 26 then ('A' as int + v) as char
    else if v < 52 then ('a' as int + (v - 26)) as char
    else if v < 62 then ('0' as int + (v - 52)) as char
    else if v == 62 then '+'
    else '/'
  }

  /** The value of an alphabet character; `None` for any other character. */
  function DigitValue(c: char): (r: Option<Sextet>)
    ensures r.Some? ==> Digit(r.value) == c
  {
    if 'A' <= c <= 'Z' then Some(c as int - 'A' as int)
    else if 'a' <= c <= 'z' then Some(c as int - 'a' as int + 26)
    else if '0' <= c <= '9' then Some(c as int - '0' as int + 52)
    else if c == '+' then Some(62)
    else if c == '/' then Some(63)
    else None
  }

  lemma DigitRoundTrip(v: Sextet)
    ensures DigitValue(Digit(v)) == Some(v)
  {
  }

  /** Three octets as four characters: the 24 bits of `a`, `b`, `c` cut into
      four sextets, most significant first. */
  function EncodeGroup(a: byte, b: byte, c: byte): (q: string)
    ensures |q| == 4
  {
    [Digit(a / 4), Digit(a % 4 * 16 + b / 16), Digit(b % 16 * 4 + c / 64), Digit(c % 64)]
  }

  /** The encoding of `s`: full groups, then a final group of one or two octets
      padded with `==` or `=`. */
  function Encode(s: Bytes): (t: string)
    ensures |t| == 4 * ((|s| + 2) / 3)
    decreases |s|
  {
    if |s| == 0 then ""
    else if |s| == 1 then EncodeGroup(s[0], 0, 0)[..2] + "=="
    else if |s| == 2 then EncodeGroup(s[0], s[1], 0)[..3] + "="
    else EncodeGroup(s[0], s[1], s[2]) + Encode(s[3..])
  }

  /** The octets of one four-character group, or `None` when it is malformed. */
  function DecodeGroup(q: string): (r: Option<Bytes>)
    requires |q| == 4
    ensures r.Some? ==> 1 <= |r.value| <= 3
  {
    var d0, d1, d2, d3 := DigitValue(q[0]), DigitValue(q[1]), DigitValue(q[2]), DigitValue(q[3]);
    if d0.None? || d1.None? then None
    else
      var a := d0.value * 4 + d1.value / 16;
      if q[2] == '=' && q[3] == '=' then Some([a])
      else if d2.None? then None
      else
        var b := d1.value % 16 * 16 + d2.value / 4;
        if q[3] == '=' then Some([a, b])
        else if d3.None? then None
        else Some([a, b, d2.value % 4 * 64 + d3.value])
  }

  /** The octets `t` encodes, or `None` when `t` is not a padded encoding. */
  function Decode(t: string): (r: Option<Bytes>)
    decreases |t|
  {
    if |t| == 0 then Some([])
    else if |t| < 4 then None
    else match DecodeGroup(t[..4])
      case None => None
      case Some(g) =>
        if |t| == 4 then Some(g)
        else if |g| < 3 then None
        else match Decode(t[4..])
          case None => None
          case Some(rest) => Some(g + rest)
  }

  /** The sextets of a group give back its octets. */
  lemma SextetArithmetic(a: byte, b: byte, c: byte)
    ensures (a / 4) * 4 + (a % 4 * 16 + b / 16) / 16 == a
    ensures (a % 4 * 16 + b / 16) % 16 * 16 + (b % 16 * 4 + c / 64) / 4 == b
    ensures (b % 16 * 4 + c / 64) % 4 * 64 + c % 64 == c
  {
    assert (a % 4 * 16 + b / 16) / 16 == a % 4;
    assert (a % 4 * 16 + b / 16) % 16 == b / 16;
    assert (b % 16 * 4 + c / 64) / 4 == b % 16;
    assert (b % 16 * 4 + c / 64) % 4 == c / 64;
  }

  lemma GroupRoundTrip(a: byte, b: byte, c: byte)
    ensures DecodeGroup(EncodeGroup(a, b, c)) == Some([a, b, c])
  {
    SextetArithmetic(a, b, c);
    DigitRoundTrip(a / 4);
    DigitRoundTrip(a % 4 * 16 + b / 16);
    DigitRoundTrip(b % 16 * 4 + c / 64);
    DigitRoundTrip(c % 64);
  }

  lemma OneOctetRoundTrip(a: byte)
    ensures DecodeGroup(EncodeGroup(a, 0, 0)[..2] + "==") == Some([a])
  {
    SextetArithmetic(a, 0, 0);
    DigitRoundTrip(a / 4);
    DigitRoundTrip(a % 4 * 16);
  }

  lemma TwoOctetRoundTrip(a: byte, b: byte)
    ensures DecodeGroup(EncodeGroup(a, b, 0)[..3] + "=") == Some([a, b])
  {
    SextetArithmetic(a, b, 0);
    DigitRoundTrip(a / 4);
    DigitRoundTrip(a % 4 * 16 + b / 16);
    DigitRoundTrip(b % 16 * 4);
  }

  /** Decoding the encoding gives the octets back. */
  lemma {:induction false} DecodeEncode(s: Bytes)
    ensures Decode(Encode(s)) == Some(s)
    decreases |s|
  {
    if |s| == 1 {
      OneOctetRoundTrip(s[0]);
      assert Encode(s)[..4] == Encode(s);
      assert s == [s[0]];
    } else if |s| == 2 {
      TwoOctetRoundTrip(s[0], s[1]);
      assert Encode(s)[..4] == Encode(s);
      assert s == [s[0], s[1]];
    } else if |s| >= 3 {
      DecodeEncode(s[3..]);
      DecodeEncodeStep(s);
    }
  }

  /** One full group in front of an encoding that decodes. */
  lemma DecodeEncodeStep(s: Bytes)
    requires |s| >= 3 && Decode(Encode(s[3..])) == Some(s[3..])
    ensures Decode(Encode(s)) == Some(s)
  {
    var g := EncodeGroup(s[0], s[1], s[2]);
    var octets: Bytes := [s[0], s[1], s[2]];
    GroupRoundTrip(s[0], s[1], s[2]);
    DecodeGroupThenRest(g, Encode(s[3..]), octets, s[3..]);
    assert Encode(s) == g + Encode(s[3..]);
    FirstThreeThenRest(s);
  }

  /** A sequence of three or more is its first three elements then the rest. */
  lemma FirstThreeThenRest<T>(s: seq<T>)
    requires |s| >= 3
    ensures [s[0], s[1], s[2]] + s[3..] == s
  {
  }

  /** A full group followed by text that decodes: the octets of both. */
  lemma DecodeGroupThenRest(g: string, rest: string, octets: Bytes, tail: Bytes)
    requires |g| == 4 && DecodeGroup(g) == Some(octets) && |octets| == 3
    requires Decode(rest) == Some(tail)
    ensures Decode(g + rest) == Some(octets + tail)
  {
    var t := g + rest;
    assert t[..4] == g;
    if rest == [] {
      assert t == g;
      assert tail == [];
      assert octets + tail == octets;
    } else {
      assert t[4..] == rest;
    }
  }

  /** Different images never share a preview text. */
  lemma EncodeInjective(s: Bytes, s': Bytes)
    requires Encode(s) == Encode(s')
    ensures s == s'
  {
    DecodeEncode(s);
    DecodeEncode(s');
  }
}
