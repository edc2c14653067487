/** The browser's `btoa`: Base64 encoding (section 4 of RFC 4648) of a string
    whose code units are all Latin-1, with the padded output of the RFC.
    A decoder is defined beside it so that the encoding can be shown to lose
    no information. */
module Base64 {
  import opened Wrappers

  /** True when every character is a Latin-1 code unit (at most U+00FF). */
  predicate IsLatin1(s: string) {
    forall i :: 0 <= i < |s| ==> s[i] as int < 256
  }

  /** An octet, and the 6-bit value one Base64 character stands for. */
  type Byte = x: int | 0 <= x < 256
  type Sextet = x: int | 0 <= x < 64

  /** The bytes `btoa` encodes: each Latin-1 character as its code. */
  function Latin1Bytes(s: string): (b: seq<Byte>)
    requires IsLatin1(s)
    ensures |b| == |s|
    ensures forall i :: 0 <= i < |s| ==> b[i] == s[i] as int
  {
    seq(|s|, i requires 0 <= i < |s| => s[i] as int)
  }

  /** The 64 characters of the Base64 alphabet (Table 1 of RFC 4648). */
  predicate IsAlphabetChar(c: char) {
    ('A' <= c <= 'Z') || ('a' <= c <= 'z') || ('0' <= c <= '9') || c == '+' || c == '/'
  }

  /** The alphabet character for a 6-bit value. */
  function SextetChar(x: Sextet): (c: char)
    ensures IsAlphabetChar(c)
  {
    if x < 26 then ('A' as int + x) as char
    else if x < 52 then ('a' as int + (x - 26)) as char
    else if x < 62 then ('0' as int + (x - 52)) as char
    else if x == 62 then '+'
    else '/'
  }

  /** The 6-bit value of an alphabet character. */
  function SextetValue(c: char): (x: Sextet)
    requires IsAlphabetChar(c)
    ensures SextetChar(x) == c
  {
    if 'A' <= c <= 'Z' then c as int - 'A' as int
    else if 'a' <= c <= 'z' then c as int - 'a' as int + 26
    else if '0' <= c <= '9' then c as int - '0' as int + 52
    else if c == '+' then 62
    else 63
  }

  lemma SextetRoundTrip(x: Sextet)
    ensures SextetValue(SextetChar(x)) == x
  {
  }

  /** The four characters for one 24-bit group of three bytes: the group is
      cut, high bits first, into four 6-bit values. */
  function EncodeGroup(b0: Byte, b1: Byte, b2: Byte): (r: string)
    ensures |r| == 4
    ensures forall i :: 0 <= i < 4 ==> IsAlphabetChar(r[i])
  {
    [ SextetChar(b0 / 4),
      SextetChar((b0 % 4) * 16 + b1 / 16),
      SextetChar((b1 % 16) * 4 + b2 / 64),
      SextetChar(b2 % 64) ]
  }

  /** Number of `=` characters that close the encoding of `n` bytes. */
  function PadCount(n: nat): nat {
    (3 - n % 3) % 3
  }

  /** Base64 with padding: each full group gives four characters; a final
      group of one or two bytes is completed with zero bits and closed with
      two or one `=`. */
  function Encode(b: seq<Byte>): (r: string)
    ensures |r| == 4 * ((|b| + 2) / 3)
    ensures PadCount(|b|) <= |r|
    ensures forall i :: 0 <= i < |r| - PadCount(|b|) ==> IsAlphabetChar(r[i])
    ensures forall i :: |r| - PadCount(|b|) <= i < |r| ==> r[i] == '='
    decreases |b|
  {
    if |b| == 0 then []
    else if |b| == 1 then EncodeGroup(b[0], 0, 0)[..2] + "=="
    else if |b| == 2 then EncodeGroup(b[0], b[1], 0)[..3] + "="
    else
      var rest := Encode(b[3..]);
      assert (|b| + 2) / 3 == (|b| - 1) / 3 + 1;
      assert PadCount(|b|) == PadCount(|b| - 3);
      EncodeGroup(b[0], b[1], b[2]) + rest
  }

  /** The three bytes carried by four alphabet characters. */
  function DecodeGroup(c0: char, c1: char, c2: char, c3: char): (b: seq<Byte>)
    requires IsAlphabetChar(c0) && IsAlphabetChar(c1) && IsAlphabetChar(c2) && IsAlphabetChar(c3)
    ensures |b| == 3
  {
    var x0, x1, x2, x3 := SextetValue(c0), SextetValue(c1), SextetValue(c2), SextetValue(c3);
    [ x0 * 4 + x1 / 16, (x1 % 16) * 16 + x2 / 4, (x2 % 4) * 64 + x3 ]
  }

  /** The last group: four alphabet characters, or two or three followed by padding. */
  function DecodeFinal(r: string): (b: Option<seq<Byte>>)
    requires |r| == 4
  {
    if !IsAlphabetChar(r[0]) || !IsAlphabetChar(r[1]) then None
    else if r[2] == '=' && r[3] == '=' then Some(DecodeGroup(r[0], r[1], 'A', 'A')[..1])
    else if !IsAlphabetChar(r[2]) then None
    else if r[3] == '=' then Some(DecodeGroup(r[0], r[1], r[2], 'A')[..2])
    else if IsAlphabetChar(r[3]) then Some(DecodeGroup(r[0], r[1], r[2], r[3]))
    else None
  }

  /** Base64 decoding: `None` for a length that is not a multiple of four,
      a character outside the alphabet, or padding before the last group. */
  function Decode(r: string): (b: Option<seq<Byte>>)
    decreases |r|
  {
    if |r| == 0 then Some([])
    else if |r| < 4 then None
    else if |r| == 4 then DecodeFinal(r)
    else if IsAlphabetChar(r[0]) && IsAlphabetChar(r[1]) && IsAlphabetChar(r[2]) && IsAlphabetChar(r[3]) then
      match Decode(r[4..])
      case None => None
      case Some(rest) => Some(DecodeGroup(r[0], r[1], r[2], r[3]) + rest)
    else None
  }

  lemma GroupRoundTrip(b0: Byte, b1: Byte, b2: Byte)
    ensures var r := EncodeGroup(b0, b1, b2); DecodeGroup(r[0], r[1], r[2], r[3]) == [b0, b1, b2]
  {
    var x0, x1, x2, x3 := b0 / 4, (b0 % 4) * 16 + b1 / 16, (b1 % 16) * 4 + b2 / 64, b2 % 64;
    SextetRoundTrip(x0);
    SextetRoundTrip(x1);
    SextetRoundTrip(x2);
    SextetRoundTrip(x3);
    assert x1 / 16 == b0 % 4 && x1 % 16 == b1 / 16;
    assert x2 / 4 == b1 % 16 && x2 % 4 == b2 / 64;
  }

  lemma TailOneRoundTrip(b0: Byte)
    ensures Decode(Encode([b0])) == Some([b0])
  {
    var r, g := Encode([b0]), EncodeGroup(b0, 0, 0);
    GroupRoundTrip(b0, 0, 0);
    assert r[0] == g[0] && r[1] == g[1] && r[2] == '=' && r[3] == '=';
    assert g[2] == 'A' && g[3] == 'A';
    assert Decode(r) == Some(DecodeGroup(g[0], g[1], g[2], g[3])[..1]);
    assert DecodeGroup(g[0], g[1], g[2], g[3]) == [b0, 0, 0];
    assert [b0, 0, 0][..1] == [b0];
  }

  lemma TailTwoRoundTrip(b0: Byte, b1: Byte)
    ensures Decode(Encode([b0, b1])) == Some([b0, b1])
  {
    var r, g := Encode([b0, b1]), EncodeGroup(b0, b1, 0);
    GroupRoundTrip(b0, b1, 0);
    assert r[0] == g[0] && r[1] == g[1] && r[2] == g[2] && r[3] == '=';
    assert g[3] == 'A';
    assert Decode(r) == Some(DecodeGroup(g[0], g[1], g[2], g[3])[..2]);
    assert DecodeGroup(g[0], g[1], g[2], g[3]) == [b0, b1, 0];
    assert [b0, b1, 0][..2] == [b0, b1];
  }

  /** Decoding recovers exactly the bytes that were encoded. */
  lemma {:induction false} DecodeEncode(b: seq<Byte>)
    ensures Decode(Encode(b)) == Some(b)
    decreases |b|
  {
    if |b| == 1 {
      assert b == [b[0]];
      TailOneRoundTrip(b[0]);
    } else if |b| == 2 {
      assert b == [b[0], b[1]];
      TailTwoRoundTrip(b[0], b[1]);
    } else if |b| >= 3 {
      var g, rest := EncodeGroup(b[0], b[1], b[2]), Encode(b[3..]);
      assert Encode(b) == g + rest;
      GroupRoundTrip(b[0], b[1], b[2]);
      assert b == [b[0], b[1], b[2]] + b[3..];
      if |b| == 3 {
        assert rest == [] && Encode(b) == g;
        assert IsAlphabetChar(g[2]) && IsAlphabetChar(g[3]) && !IsAlphabetChar('=');
        assert Decode(g) == DecodeFinal(g) == Some(DecodeGroup(g[0], g[1], g[2], g[3]));
        assert b == [b[0], b[1], b[2]];
      } else {
        DecodeEncode(b[3..]);
        DecodeFullGroup(g, rest);
      }
    }
  }

  /** A full group in front of a non-empty rest decodes group by group. */
  lemma DecodeFullGroup(g: string, rest: string)
    requires |g| == 4 && forall i :: 0 <= i < 4 ==> IsAlphabetChar(g[i])
    requires rest != []
    ensures Decode(g + rest) ==
      match Decode(rest)
      case None => None
      case Some(tail) => Some(DecodeGroup(g[0], g[1], g[2], g[3]) + tail)
  {
    var r := g + rest;
    assert r[..4] == g && r[4..] == rest;
    assert r[0] == g[0] && r[1] == g[1] && r[2] == g[2] && r[3] == g[3];
  }

  /** Different byte strings never share an encoding. */
  lemma EncodeInjective(b1: seq<Byte>, b2: seq<Byte>)
    requires Encode(b1) == Encode(b2)
    ensures b1 == b2
  {
    DecodeEncode(b1);
    DecodeEncode(b2);
  }

  /** The first `4k` characters of an encoding depend only on the first `3k`
      bytes: they are the encoding of those bytes. */
  lemma {:induction false} EncodePrefix(b: seq<Byte>, k: nat)
    requires 3 * k <= |b|
    ensures Encode(b)[..4 * k] == Encode(b[..3 * k])
    decreases k
  {
    if k > 0 {
      EncodePrefix(b[3..], k - 1);
      assert b[..3 * k][3..] == b[3..][..3 * (k - 1)];
      assert Encode(b[..3 * k]) == EncodeGroup(b[0], b[1], b[2]) + Encode(b[3..][..3 * (k - 1)]);
    }
  }

  /** The browser's `btoa` rejects a string holding any character above
      U+00FF with an `InvalidCharacterError`. */
  datatype BtoaError = InvalidCharacterError

  function Btoa(s: string): (r: Result<string, BtoaError>)
    ensures r.Success? <==> IsLatin1(s)
    ensures r.Success? ==> |r.value| == 4 * ((|s| + 2) / 3)
    ensures r.Success? ==> forall i :: 0 <= i < |r.value| ==> IsAlphabetChar(r.value[i]) || r.value[i] == '='
  {
    if IsLatin1(s) then Success(Encode(Latin1Bytes(s))) else Failure(InvalidCharacterError)
  }

  /** The groups that make up the test vectors below. */
  lemma VectorGroups()
    ensures EncodeGroup(102, 0, 0) == "ZgAA"
    ensures EncodeGroup(102, 111, 0) == "Zm8A"
    ensures EncodeGroup(102, 111, 111) == "Zm9v"
    ensures EncodeGroup(98, 0, 0) == "YgAA"
    ensures EncodeGroup(98, 97, 0) == "YmEA"
    ensures EncodeGroup(98, 97, 114) == "YmFy"
    ensures EncodeGroup(255, 254, 0) == "//4A"
  {
    assert SextetChar(25) == 'Z' && SextetChar(24) == 'Y';
    assert SextetChar(32) == 'g' && SextetChar(38) == 'm';
    assert SextetChar(60) == '8' && SextetChar(61) == '9' && SextetChar(47) == 'v';
    assert SextetChar(4) == 'E' && SextetChar(5) == 'F' && SextetChar(50) == 'y';
    assert SextetChar(63) == '/' && SextetChar(56) == '4' && SextetChar(0) == 'A';
  }

  /** Encodings of at most one group. */
  lemma ShortVectors()
    ensures Encode([102]) == "Zg=="
    ensures Encode([102, 111]) == "Zm8="
    ensures Encode([102, 111, 111]) == "Zm9v"
    ensures Encode([98]) == "Yg=="
    ensures Encode([98, 97]) == "YmE="
    ensures Encode([98, 97, 114]) == "YmFy"
  {
    VectorGroups();
    assert Encode([]) == [];
    assert "ZgAA"[..2] == "Zg" && "Zm8A"[..3] == "Zm8";
    assert "YgAA"[..2] == "Yg" && "YmEA"[..3] == "YmE";
  }

  /** An encoding of more than three bytes is the first group's followed
      by the rest's. */
  lemma EncodeUnfold(b: seq<Byte>)
    requires |b| > 3
    ensures Encode(b) == EncodeGroup(b[0], b[1], b[2]) + Encode(b[3..])
  {
  }

  /** Encodings of a full group followed by a rest. */
  lemma LongVectors()
    ensures Encode([102, 111, 111, 98]) == "Zm9vYg=="
    ensures Encode([102, 111, 111, 98, 97]) == "Zm9vYmE="
    ensures Encode([102, 111, 111, 98, 97, 114]) == "Zm9vYmFy"
  {
    VectorGroups();
    ShortVectors();
    var b4, b5, b6 := [102, 111, 111, 98], [102, 111, 111, 98, 97], [102, 111, 111, 98, 97, 114];
    EncodeUnfold(b4);
    assert b4[3..] == [98];
    EncodeUnfold(b5);
    assert b5[3..] == [98, 97];
    EncodeUnfold(b6);
    assert b6[3..] == [98, 97, 114];
  }

  /** The test vectors of section 10 of RFC 4648: the encoding is the
      canonical one, with zero bits before the padding. */
  lemma RfcTestVectors()
    ensures Btoa("") == Success("")
    ensures Btoa("f") == Success("Zg==")
    ensures Btoa("fo") == Success("Zm8=")
    ensures Btoa("foo") == Success("Zm9v")
    ensures Btoa("foob") == Success("Zm9vYg==")
    ensures Btoa("fooba") == Success("Zm9vYmE=")
    ensures Btoa("foobar") == Success("Zm9vYmFy")
  {
    ShortVectors();
    LongVectors();
    assert Latin1Bytes("f") == [102];
    assert Latin1Bytes("fo") == [102, 111];
    assert Latin1Bytes("foo") == [102, 111, 111];
    assert Latin1Bytes("foob") == [102, 111, 111, 98];
    assert Latin1Bytes("fooba") == [102, 111, 111, 98, 97];
    assert Latin1Bytes("foobar") == [102, 111, 111, 98, 97, 114];
  }

  /** Bytes above 0x7F are encoded by their Latin-1 code. */
  lemma HighByteVector()
    ensures Btoa("\U{FF}\U{FE}\U{00}") == Success("//4A")
  {
    VectorGroups();
    assert Latin1Bytes("\U{FF}\U{FE}\U{00}") == [255, 254, 0];
    assert Encode([255, 254, 0]) == "//4A" by {
      assert Encode([]) == [];
    }
  }

  /** Two Latin-1 strings have the same `btoa` exactly when they are equal. */
  lemma BtoaInjective(s1: string, s2: string)
    requires IsLatin1(s1) && IsLatin1(s2)
    ensures Btoa(s1) == Btoa(s2) <==> s1 == s2
  {
    if Btoa(s1) == Btoa(s2) {
      EncodeInjective(Latin1Bytes(s1), Latin1Bytes(s2));
      assert forall i :: 0 <= i < |s1| ==> s1[i] as int == s2[i] as int;
    }
  }
}
