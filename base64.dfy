/**
 * The standard Base64 encoding of RFC 4648, section 4 (alphabet
 * A-Z a-z 0-9 + /, padded with '=' to a multiple of four characters), as
 * Go's `encoding/base64.StdEncoding` implements it. The webhook handler
 * recovers the request body through `StdEncoding.DecodeString`, and the JSON
 * encoder it calls first writes a byte slice with the same encoder.
 */
module Base64 {

  /** One octet, as Go's `byte`. */
  type byte = b: int | 0 <= b < 0x100

  /** The padding character. */
  const Pad: char := '='

  /** The character that encodes the 6-bit value `v`, by the ranges of Table 1. */
  function SextetChar(v: int): (c: char)
    requires 0 <= v < 64
    ensures IsAlphabetChar(c) && CharValue(c) == v
  {
    if v < 26 then ('A' as int + v) as char
    else if v < 52 then ('a' as int + (v - 26)) as char
    else if v < 62 then ('0' as int + (v - 52)) as char
    else if v == 62 then '+'
    else '/'
  }

  /** Whether `c` belongs to the alphabet (Go's decode map holds a value for it). */
  predicate IsAlphabetChar(c: char)
  {
    ('A' <= c <= 'Z') || ('a' <= c <= 'z') || ('0' <= c <= '9') || c == '+' || c == '/'
  }

  /** The 6-bit value of an alphabet character; the inverse of SextetChar. */
  function CharValue(c: char): (v: int)
    requires IsAlphabetChar(c)
    ensures 0 <= v < 64
  {
    if 'A' <= c <= 'Z' then c as int - 'A' as int
    else if 'a' <= c <= 'z' then c as int - 'a' as int + 26
    else if '0' <= c <= '9' then c as int - '0' as int + 52
    else if c == '+' then 62
    else 63
  }

  // ---------------------------------------------------------------------
  // Encoding

  /** The four 6-bit groups of the 24 bits b0 b1 b2, most significant first. */
  function Sextets(b0: byte, b1: byte, b2: byte): (v: seq<int>)
    ensures |v| == 4 && forall k | 0 <= k < 4 :: 0 <= v[k] < 64
    ensures v[0] * 262144 + v[1] * 4096 + v[2] * 64 + v[3] == b0 as int * 65536 + b1 as int * 256 + b2 as int
  {
    [b0 / 4, (b0 % 4) * 16 + b1 / 16, (b1 % 16) * 4 + b2 / 64, b2 % 64]
  }

  /** Three octets as four alphabet characters. */
  function EncodeGroup(b0: byte, b1: byte, b2: byte): (s: seq<char>)
    ensures |s| == 4 && forall k | 0 <= k < 4 :: IsAlphabetChar(s[k]) && CharValue(s[k]) == Sextets(b0, b1, b2)[k]
  {
    var v := Sextets(b0, b1, b2);
    [SextetChar(v[0]), SextetChar(v[1]), SextetChar(v[2]), SextetChar(v[3])]
  }

  /**
   * `StdEncoding.EncodeToString`: full groups of three octets, then a final
   * group of one octet (two characters and "==") or two octets (three
   * characters and "="), the missing octets counting as zero.
   */
  function Encode(b: seq<byte>): (s: seq<char>)
    ensures |s| == 4 * ((|b| + 2) / 3)
    ensures |s| % 4 == 0
    ensures forall k | 0 <= k < |s| :: IsAlphabetChar(s[k]) || s[k] == Pad
  {
    if |b| == 0 then []
    else if |b| == 1 then EncodeGroup(b[0], 0, 0)[..2] + [Pad, Pad]
    else if |b| == 2 then EncodeGroup(b[0], b[1], 0)[..3] + [Pad]
    else
      var g, rest := EncodeGroup(b[0], b[1], b[2]), Encode(b[3..]);
      assert (|b| + 2) / 3 == (|b| - 3 + 2) / 3 + 1;
      assert forall k | 0 <= k < |rest| :: (g + rest)[4 + k] == rest[k];
      g + rest
  }

  // ---------------------------------------------------------------------
  // Decoding

  /**
   * What `DecodeString` returns: the octets written to the output slice and
   * whether the error result was nil. On an error Go still returns the octets
   * of the quanta decoded before it.
   */
  datatype Decoding = Decoding(bytes: seq<byte>, ok: bool)

  predicate IsLineBreak(c: char)
  {
    c == '\n' || c == '\r'
  }

  /** The decoder skips every '\r' and '\n' wherever it stands in the input. */
  function RemoveLineBreaks(s: seq<char>): (t: seq<char>)
    ensures |t| <= |s|
    ensures forall k | 0 <= k < |t| :: !IsLineBreak(t[k])
  {
    if s == [] then []
    else if IsLineBreak(s[0]) then RemoveLineBreaks(s[1..])
    else [s[0]] + RemoveLineBreaks(s[1..])
  }

  /** The 24 bits of four 6-bit values as three octets, most significant first. */
  function Octets(v0: int, v1: int, v2: int, v3: int): (b: seq<byte>)
    requires 0 <= v0 < 64 && 0 <= v1 < 64 && 0 <= v2 < 64 && 0 <= v3 < 64
    ensures |b| == 3
    ensures b[0] as int * 65536 + b[1] as int * 256 + b[2] as int == v0 * 262144 + v1 * 4096 + v2 * 64 + v3
  {
    [v0 * 4 + v1 / 16, (v1 % 16) * 16 + v2 / 4, (v2 % 4) * 64 + v3]
  }

  /**
   * Decodes line-break-free input one quantum of four characters at a time:
   *  - four alphabet characters give three octets and decoding goes on;
   *  - "xy==" gives one octet and "xyz=" two (the padded positions count as
   *    zero); padding ends the input, so anything after it is an error, but
   *    the octets of the padded quantum are still written;
   *  - a padding character in the first or second position, a lone '=' in
   *    the third, a character outside the alphabet, or a final quantum of
   *    fewer than four characters is an error that writes nothing for that
   *    quantum.
   * The padding bits of the last character are not checked (the encoding is
   * not strict).
   */
  function DecodeQuanta(t: seq<char>): (r: Decoding)
    ensures r.ok ==> |t| % 4 == 0
    ensures |r.bytes| <= |t| / 4 * 3
  {
    if t == [] then Decoding([], true)
    else if |t| < 4 then Decoding([], false)
    else
      var c0, c1, c2, c3 := t[0], t[1], t[2], t[3];
      if IsAlphabetChar(c0) && IsAlphabetChar(c1) && IsAlphabetChar(c2) && IsAlphabetChar(c3) then
        var rest := DecodeQuanta(t[4..]);
        Decoding(Octets(CharValue(c0), CharValue(c1), CharValue(c2), CharValue(c3)) + rest.bytes, rest.ok)
      else if IsAlphabetChar(c0) && IsAlphabetChar(c1) && c2 == Pad && c3 == Pad then
        Decoding(Octets(CharValue(c0), CharValue(c1), 0, 0)[..1], |t| == 4)
      else if IsAlphabetChar(c0) && IsAlphabetChar(c1) && IsAlphabetChar(c2) && c3 == Pad then
        Decoding(Octets(CharValue(c0), CharValue(c1), CharValue(c2), 0)[..2], |t| == 4)
      else
        Decoding([], false)
  }

  /**
   * `StdEncoding.DecodeString`. A successful decode came from input whose
   * length without line breaks is a multiple of four, and the octets always
   * fit the buffer Go allocates for them (three per four characters).
   */
  function Decode(s: seq<char>): (r: Decoding)
    ensures r.ok ==> |RemoveLineBreaks(s)| % 4 == 0
    ensures |r.bytes| <= |s| / 4 * 3
  {
    DecodeQuanta(RemoveLineBreaks(s))
  }

  // ---------------------------------------------------------------------
  // Round trip

  /** A value written as `hi * 16 + lo` with `lo < 16` splits back into `hi` and `lo`. */
  lemma SplitBy16(hi: int, lo: int)
    requires 0 <= hi && 0 <= lo < 16
    ensures (hi * 16 + lo) / 16 == hi && (hi * 16 + lo) % 16 == lo
  {
  }

  /** A value written as `hi * 4 + lo` with `lo < 4` splits back into `hi` and `lo`. */
  lemma SplitBy4(hi: int, lo: int)
    requires 0 <= hi && 0 <= lo < 4
    ensures (hi * 4 + lo) / 4 == hi && (hi * 4 + lo) % 4 == lo
  {
  }

  /** Splitting three octets into sextets and joining them again is the identity. */
  lemma OctetsOfSextets(b0: byte, b1: byte, b2: byte)
    ensures var v := Sextets(b0, b1, b2); Octets(v[0], v[1], v[2], v[3]) == [b0, b1, b2]
  {
    SplitBy16(b0 % 4, b1 / 16);
    SplitBy4(b1 % 16, b2 / 64);
    assert b0 / 4 * 4 + b0 % 4 == b0;
    assert b1 / 16 * 16 + b1 % 16 == b1;
    assert b2 / 64 * 64 + b2 % 64 == b2;
  }

  /** Encoded text holds no line break, so the decoder skips nothing in it. */
  lemma {:induction false} NoLineBreaksKept(s: seq<char>)
    requires forall k | 0 <= k < |s| :: !IsLineBreak(s[k])
    ensures RemoveLineBreaks(s) == s
  {
    if s != [] {
      NoLineBreaksKept(s[1..]);
    }
  }

  /** Skipping line breaks distributes over concatenation: every other character is kept, in order. */
  lemma {:induction false} RemoveLineBreaksAppend(a: seq<char>, b: seq<char>)
    ensures RemoveLineBreaks(a + b) == RemoveLineBreaks(a) + RemoveLineBreaks(b)
  {
    if a != [] {
      assert (a + b)[0] == a[0];
      assert (a + b)[1..] == a[1..] + b;
      RemoveLineBreaksAppend(a[1..], b);
    } else {
      assert a + b == b;
    }
  }

  /** A character that is not a line break survives the skipping. */
  lemma OtherCharacterKept(c: char)
    requires !IsLineBreak(c)
    ensures RemoveLineBreaks([c]) == [c]
  {
    assert [c][1..] == [];
  }

  /** A '\r' or '\n' anywhere in the input does not change what is decoded. */
  lemma LineBreakIgnored(a: seq<char>, c: char, b: seq<char>)
    requires IsLineBreak(c)
    ensures Decode(a + [c] + b) == Decode(a + b)
  {
    assert RemoveLineBreaks([c]) == [] by {
      assert [c][1..] == [];
    }
    RemoveLineBreaksAppend(a + [c], b);
    RemoveLineBreaksAppend(a, [c]);
    RemoveLineBreaksAppend(a, b);
    assert RemoveLineBreaks(a + [c]) == RemoveLineBreaks(a);
    assert RemoveLineBreaks(a + [c] + b) == RemoveLineBreaks(a + b);
  }

  /** A full quantum in front of more input: its octets, then those of the rest. */
  lemma DecodeFullQuantum(g: seq<char>, rest: seq<char>)
    requires |g| == 4 && forall k | 0 <= k < 4 :: IsAlphabetChar(g[k])
    ensures DecodeQuanta(g + rest)
         == Decoding(Octets(CharValue(g[0]), CharValue(g[1]), CharValue(g[2]), CharValue(g[3])) + DecodeQuanta(rest).bytes,
                     DecodeQuanta(rest).ok)
  {
    var t := g + rest;
    assert t[0] == g[0] && t[1] == g[1] && t[2] == g[2] && t[3] == g[3];
    assert t[4..] == rest;
  }

  lemma {:induction false} DecodeQuantaEncode(b: seq<byte>)
    ensures DecodeQuanta(Encode(b)) == Decoding(b, true)
    decreases |b|
  {
    if |b| == 0 {
    } else if |b| == 1 {
      var g := EncodeGroup(b[0], 0, 0);
      OctetsOfSextets(b[0], 0, 0);
      var v := Sextets(b[0], 0, 0);
      assert Octets(v[0], v[1], 0, 0) == [b[0], 0, 0];
      assert [b[0]] == b;
    } else if |b| == 2 {
      var g := EncodeGroup(b[0], b[1], 0);
      OctetsOfSextets(b[0], b[1], 0);
      assert [b[0], b[1]] == b;
    } else {
      var g := EncodeGroup(b[0], b[1], b[2]);
      DecodeFullQuantum(g, Encode(b[3..]));
      OctetsOfSextets(b[0], b[1], b[2]);
      DecodeQuantaEncode(b[3..]);
      assert [b[0], b[1], b[2]] + b[3..] == b;
    }
  }

  /** RFC 4648 decoding inverts encoding: every octet sequence comes back, without error. */
  lemma RoundTrip(b: seq<byte>)
    ensures Decode(Encode(b)) == Decoding(b, true)
  {
    var s := Encode(b);
    forall k | 0 <= k < |s| ensures !IsLineBreak(s[k]) {
      assert IsAlphabetChar(s[k]) || s[k] == Pad;
    }
    NoLineBreaksKept(s);
    DecodeQuantaEncode(b);
  }

  /** The test vector of RFC 4648, section 10, for "f": one octet and two padding characters. */
  lemma OneOctetTestVector()
    ensures Encode([102]) == "Zg=="
  {
    OneOctetGroup();
  }

  /** The first two characters of the group "f" 0 0. */
  lemma OneOctetGroup()
    ensures EncodeGroup(102, 0, 0)[..2] == "Zg"
  {
    var v := Sextets(102, 0, 0);
    assert v[0] == 25 && v[1] == 32;
    var g := EncodeGroup(102, 0, 0);
    assert g[0] == SextetChar(25) == 'Z';
    assert g[1] == SextetChar(32) == 'g';
  }

  /** The test vector of RFC 4648, section 10, for "fo": two octets and one padding character. */
  lemma TwoOctetTestVector()
    ensures Encode([102, 111]) == "Zm8="
  {
    assert Sextets(102, 111, 0) == [25, 38, 60, 0];
    assert EncodeGroup(102, 111, 0)[..3] == "Zm8";
  }

  /** The test vectors of RFC 4648, section 10, for "foo" and "foobar". */
  lemma FullGroupTestVectors()
    ensures Encode([102, 111, 111]) == "Zm9v"
    ensures Encode([102, 111, 111, 98, 97, 114]) == "Zm9vYmFy"
  {
    assert Sextets(102, 111, 111) == [25, 38, 61, 47];
    assert Sextets(98, 97, 114) == [24, 38, 5, 50];
    var foo: seq<byte> := [102, 111, 111];
    var bar: seq<byte> := [98, 97, 114];
    var foobar: seq<byte> := [102, 111, 111, 98, 97, 114];
    assert foo[3..] == [] && bar[3..] == [] && foobar[3..] == bar;
    assert Encode(bar) == "YmFy";
    assert Encode(foo) == "Zm9v";
  }
}
