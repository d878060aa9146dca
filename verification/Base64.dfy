/** Byte strings and their text encodings: base64 in the two variants the
    program uses (sections 4 and 5 of RFC 4648, decoded as leniently as Go
    does) and hexadecimal (section 8). */
module Base64 {
  import opened Wrappers

  type Byte = b: int | 0 <= b < 256
  type Bytes = seq<Byte>

  // ----- base64 -----

  /** StdEncoding is Encoding(false, true), RawURLEncoding is Encoding(true, false). */
  datatype Encoding = Encoding(url: bool, padded: bool)

  const STD := Encoding(false, true)
  const RAW_URL := Encoding(true, false)

  type Sextet = v: int | 0 <= v < 64

  function CharAt(base: char, offset: nat): char
    requires base as int + offset < 128
  {
    (base as int + offset) as char
  }

  function CharOf(e: Encoding, v: Sextet): char {
    if v < 26 then CharAt('A', v)
    else if v < 52 then CharAt('a', v - 26)
    else if v < 62 then CharAt('0', v - 52)
    else if v == 62 then (if e.url then '-' else '+')
    else if e.url then '_' else '/'
  }

  function ValueOf(e: Encoding, c: char): Option<Sextet> {
    if 'A' <= c <= 'Z' then Some(c as int - 'A' as int)
    else if 'a' <= c <= 'z' then Some(c as int - 'a' as int + 26)
    else if '0' <= c <= '9' then Some(c as int - '0' as int + 52)
    else if c == (if e.url then '-' else '+') then Some(62)
    else if c == (if e.url then '_' else '/') then Some(63)
    else None
  }

  function Encode(e: Encoding, b: Bytes): string {
    if b == [] then ""
    else if |b| == 1 then
      [CharOf(e, b[0] / 4), CharOf(e, b[0] % 4 * 16)] + (if e.padded then "==" else "")
    else if |b| == 2 then
      [CharOf(e, b[0] / 4), CharOf(e, b[0] % 4 * 16 + b[1] / 16), CharOf(e, b[1] % 16 * 4)]
      + (if e.padded then "=" else "")
    else
      [CharOf(e, b[0] / 4), CharOf(e, b[0] % 4 * 16 + b[1] / 16),
       CharOf(e, b[1] % 16 * 4 + b[2] / 64), CharOf(e, b[2] % 64)]
      + Encode(e, b[3..])
  }

  /** The bytes of a group of two, three or four sextets. */
  function GroupBytes(e: Encoding, g: string): (r: Option<Bytes>)
    requires 2 <= |g| <= 4
    ensures r.Some? ==> |r.value| == |g| - 1
  {
    if exists i | 0 <= i < |g| :: ValueOf(e, g[i]).None? then None
    else
      var v0, v1 := ValueOf(e, g[0]).value, ValueOf(e, g[1]).value;
      if |g| == 2 then Some([v0 * 4 + v1 / 16])
      else
        var v2 := ValueOf(e, g[2]).value;
        if |g| == 3 then Some([v0 * 4 + v1 / 16, v1 % 16 * 16 + v2 / 4])
        else Some([v0 * 4 + v1 / 16, v1 % 16 * 16 + v2 / 4, v2 % 4 * 64 + ValueOf(e, g[3]).value])
  }

  /** The last group: padded encodings need it complete, raw ones must not pad it. */
  function DecodeTail(e: Encoding, s: string): Option<Bytes>
    requires 0 < |s| <= 4
  {
    if |s| == 1 then None
    else if |s| < 4 then (if e.padded then None else GroupBytes(e, s))
    else if e.padded && s[3] == '=' then
      (if s[2] == '=' then GroupBytes(e, s[..2]) else GroupBytes(e, s[..3]))
    else GroupBytes(e, s)
  }

  function DecodeGroups(e: Encoding, s: string): Option<Bytes> {
    if s == [] then Some([])
    else if |s| <= 4 then DecodeTail(e, s)
    else
      match GroupBytes(e, s[..4])
      case None => None
      case Some(b) =>
        match DecodeGroups(e, s[4..])
        case None => None
        case Some(rest) => Some(b + rest)
  }

  /** Go's decoder skips carriage returns and line feeds wherever they stand. */
  function SkipNewlines(s: string): string {
    if s == [] then []
    else (if s[0] == '\r' || s[0] == '\n' then [] else [s[0]]) + SkipNewlines(s[1..])
  }

  function Decode(e: Encoding, s: string): Option<Bytes> {
    DecodeGroups(e, SkipNewlines(s))
  }

  predicate InAlphabet(e: Encoding, s: string) {
    forall i | 0 <= i < |s| :: ValueOf(e, s[i]).Some?
  }

  predicate NoNewlines(s: string) {
    forall i | 0 <= i < |s| :: s[i] != '\r' && s[i] != '\n'
  }

  lemma {:induction false} SkipNothing(s: string)
    requires NoNewlines(s)
    ensures SkipNewlines(s) == s
  {
    if s != [] {
      SkipNothing(s[1..]);
    }
  }

  lemma ValueOfChar(e: Encoding, v: Sextet)
    ensures ValueOf(e, CharOf(e, v)) == Some(v)
    ensures CharOf(e, v) != '=' && CharOf(e, v) != '\r' && CharOf(e, v) != '\n'
  {}

  lemma {:induction false} EncodeShape(e: Encoding, b: Bytes)
    ensures NoNewlines(Encode(e, b))
    ensures b != [] ==> Encode(e, b) != []
  {
    if |b| >= 3 {
      EncodeShape(e, b[3..]);
    }
  }

  /** The characters that carry one to three bytes decode to those bytes. */
  lemma GroupRoundTrip(e: Encoding, b: Bytes, v: seq<Sextet>, g: string)
    requires 1 <= |b| <= 3 && |v| == |g| == |b| + 1
    requires v[0] == b[0] / 4 && v[1] == b[0] % 4 * 16 + (if |b| > 1 then b[1] / 16 else 0)
    requires |b| > 1 ==> v[2] == b[1] % 16 * 4 + (if |b| > 2 then b[2] / 64 else 0)
    requires |b| > 2 ==> v[3] == b[2] % 64
    requires forall i | 0 <= i < |g| :: g[i] == CharOf(e, v[i])
    ensures GroupBytes(e, g) == Some(b)
  {
    forall i | 0 <= i < |g| ensures ValueOf(e, g[i]) == Some(v[i]) {
      ValueOfChar(e, v[i]);
    }
    assert GroupBytes(e, g).Some?;
    assert GroupBytes(e, g).value == b;
  }

  lemma {:induction false} GroupsRoundTrip(e: Encoding, b: Bytes)
    ensures DecodeGroups(e, Encode(e, b)) == Some(b)
  {
    var s := Encode(e, b);
    if b == [] {
    } else if |b| == 1 {
      GroupRoundTrip(e, b, [b[0] / 4, b[0] % 4 * 16], s[..2]);
      assert !e.padded ==> s[..2] == s;
    } else if |b| == 2 {
      GroupRoundTrip(e, b, [b[0] / 4, b[0] % 4 * 16 + b[1] / 16, b[1] % 16 * 4], s[..3]);
      ValueOfChar(e, b[1] % 16 * 4);
      assert !e.padded ==> s[..3] == s;
    } else {
      var v := [b[0] / 4, b[0] % 4 * 16 + b[1] / 16, b[1] % 16 * 4 + b[2] / 64, b[2] % 64];
      GroupRoundTrip(e, b[..3], v, s[..4]);
      ValueOfChar(e, v[3]);
      assert s[4..] == Encode(e, b[3..]);
      GroupsRoundTrip(e, b[3..]);
      EncodeShape(e, b[3..]);
      assert GroupBytes(e, s[..4]).value + b[3..] == b;
      if |b| == 3 {
        assert s[..4] == s && b[..3] == b;
        assert s[3] == CharOf(e, v[3]);
      }
    }
  }

  /** Decoding undoes encoding, for every byte string and both variants. */
  lemma RoundTrip(e: Encoding, b: Bytes)
    ensures Decode(e, Encode(e, b)) == Some(b)
  {
    EncodeShape(e, b);
    SkipNothing(Encode(e, b));
    GroupsRoundTrip(e, b);
  }

  /** The characters of an encoding that the bytes determine in full: all but
      the last one before the padding, when that carries unused bits. */
  function Determined(b: Bytes): nat {
    |b| / 3 * 4 + |b| % 3
  }

  /** Texts that agree up to the unused bits of that one character. */
  ghost predicate SameUpToSpareBits(s: string, t: string, n: nat) {
    && |s| == |t| && n <= |s| && s[..n] == t[..n]
    && (n < |s| ==> s[n + 1..] == t[n + 1..])
  }

  lemma CharOfValue(e: Encoding, c: char)
    requires ValueOf(e, c).Some?
    ensures CharOf(e, ValueOf(e, c).value) == c
  {}

  /** Three bytes give back the four sextets they were put together from. */
  lemma SextetsBack(v0: int, v1: int, v2: int, v3: int)
    requires 0 <= v0 < 64 && 0 <= v1 < 64 && 0 <= v2 < 64 && 0 <= v3 < 64
    ensures var x, y, z := v0 * 4 + v1 / 16, v1 % 16 * 16 + v2 / 4, v2 % 4 * 64 + v3;
            && x / 4 == v0 && x % 4 * 16 + y / 16 == v1 && y % 16 * 4 + z / 64 == v2 && z % 64 == v3
  {}

  /** The sextet a character stands for. */
  lemma SextetOf(e: Encoding, g: string, i: nat) returns (v: int)
    requires 2 <= |g| <= 4 && GroupBytes(e, g).Some? && i < |g|
    ensures 0 <= v < 64 && ValueOf(e, g[i]) == Some(v) && CharOf(e, v) == g[i]
  {
    assert ValueOf(e, g[i]).Some?;
    v := ValueOf(e, g[i]).value;
    CharOfValue(e, g[i]);
  }

  /** The characters of a whole group are those its bytes are encoded with. */
  lemma WholeGroupExact(e: Encoding, g: string, b: Bytes)
    requires |g| == 4 && GroupBytes(e, g) == Some(b)
    ensures |b| == 3 && Encode(e, b) == g
  {
    var v0 := SextetOf(e, g, 0);
    var v1 := SextetOf(e, g, 1);
    var v2 := SextetOf(e, g, 2);
    var v3 := SextetOf(e, g, 3);
    SextetsBack(v0, v1, v2, v3);
    EncodeThree(e, b, v0, v1, v2, v3);
  }

  lemma EncodeThree(e: Encoding, b: Bytes, v0: Sextet, v1: Sextet, v2: Sextet, v3: Sextet)
    requires |b| == 3 && b[0] / 4 == v0 && b[0] % 4 * 16 + b[1] / 16 == v1
    requires b[1] % 16 * 4 + b[2] / 64 == v2 && b[2] % 64 == v3
    ensures Encode(e, b) == [CharOf(e, v0), CharOf(e, v1), CharOf(e, v2), CharOf(e, v3)]
  {
    assert b[3..] == [] && Encode(e, []) == "";
  }

  lemma TwoExact(e: Encoding, g: string, b: Bytes)
    requires |g| == 2 && GroupBytes(e, g) == Some(b)
    ensures |b| == 1 && |Encode(e, b)| >= 2 && Encode(e, b)[0] == g[0]
    ensures Encode(e, b)[2..] == if e.padded then "==" else ""
  {
    var v0 := SextetOf(e, g, 0);
    var v1 := SextetOf(e, g, 1);
    SextetsBack(v0, v1, 0, 0);
  }

  lemma ThreeExact(e: Encoding, g: string, b: Bytes)
    requires |g| == 3 && GroupBytes(e, g) == Some(b)
    ensures |b| == 2 && |Encode(e, b)| >= 3 && Encode(e, b)[0] == g[0] && Encode(e, b)[1] == g[1]
    ensures Encode(e, b)[3..] == if e.padded then "=" else ""
  {
    var v0 := SextetOf(e, g, 0);
    var v1 := SextetOf(e, g, 1);
    var v2 := SextetOf(e, g, 2);
    SextetsBack(v0, v1, v2, 0);
    EncodeTwo(e, b, v0, v1);
  }

  lemma EncodeTwo(e: Encoding, b: Bytes, v0: Sextet, v1: Sextet)
    requires |b| == 2 && b[0] / 4 == v0 && b[0] % 4 * 16 + b[1] / 16 == v1
    ensures |Encode(e, b)| >= 3 && Encode(e, b)[0] == CharOf(e, v0) && Encode(e, b)[1] == CharOf(e, v1)
    ensures Encode(e, b)[3..] == if e.padded then "=" else ""
  {}

  /** So are those of a shorter one, up to its last character. */
  lemma PartGroupExact(e: Encoding, g: string, b: Bytes)
    requires 2 <= |g| <= 3 && GroupBytes(e, g) == Some(b)
    ensures |b| == |g| - 1 && |Encode(e, b)| >= |g|
    ensures Encode(e, b)[..|g| - 1] == g[..|g| - 1]
    ensures Encode(e, b)[|g|..] == if e.padded then (if |g| == 2 then "==" else "=") else ""
  {
    if |g| == 2 { TwoExact(e, g, b); } else { ThreeExact(e, g, b); }
  }

  lemma PartExact(e: Encoding, s: string, g: string, b: Bytes)
    requires 2 <= |g| <= 3 && GroupBytes(e, g) == Some(b)
    requires s == g + if e.padded then (if |g| == 2 then "==" else "=") else ""
    ensures 1 <= |b| <= 2 && SameUpToSpareBits(s, Encode(e, b), Determined(b))
  {
    PartGroupExact(e, g, b);
    var t := Encode(e, b);
    assert s[..|g| - 1] == g[..|g| - 1] && s[|g|..] == t[|g|..];
  }

  lemma TailExact(e: Encoding, s: string, b: Bytes)
    requires 0 < |s| <= 4 && DecodeTail(e, s) == Some(b)
    ensures 1 <= |b| <= 3 && SameUpToSpareBits(s, Encode(e, b), Determined(b))
  {
    if |s| < 4 {
      assert s == s + "";
      PartExact(e, s, s, b);
    } else if e.padded && s[3] == '=' && s[2] == '=' {
      assert s == s[..2] + "==";
      PartExact(e, s, s[..2], b);
    } else if e.padded && s[3] == '=' {
      assert s == s[..3] + "=";
      PartExact(e, s, s[..3], b);
    } else {
      WholeGroupExact(e, s, b);
    }
  }

  lemma EncodeStep(e: Encoding, b: Bytes, rest: Bytes)
    requires |b| == 3
    ensures Encode(e, b + rest) == Encode(e, b) + Encode(e, rest) && |Encode(e, b)| == 4
    ensures Determined(b + rest) == 4 + Determined(rest)
  {
    assert b[3..] == [] && (b + rest)[3..] == rest;
    assert Encode(e, []) == "";
  }

  lemma GroupThenRest(e: Encoding, g: string, b: Bytes, s: string, rest: Bytes)
    requires |g| == 4 && GroupBytes(e, g) == Some(b) && SameUpToSpareBits(s, Encode(e, rest), Determined(rest))
    ensures SameUpToSpareBits(g + s, Encode(e, b + rest), Determined(b + rest))
  {
    WholeGroupExact(e, g, b);
    EncodeStep(e, b, rest);
    SpareBitsAfter(g, s, Encode(e, rest), Determined(rest));
  }

  lemma {:induction false} GroupsExact(e: Encoding, s: string, b: Bytes)
    requires DecodeGroups(e, s) == Some(b)
    ensures SameUpToSpareBits(s, Encode(e, b), Determined(b))
    decreases |s|
  {
    if 0 < |s| <= 4 {
      TailExact(e, s, b);
    } else if |s| > 4 {
      var first, rest := GroupBytes(e, s[..4]).value, DecodeGroups(e, s[4..]).value;
      GroupsExact(e, s[4..], rest);
      GroupThenRest(e, s[..4], first, s[4..], rest);
      assert s == s[..4] + s[4..];
    }
  }

  lemma SpareBitsAfter(head: string, s: string, t: string, n: nat)
    requires SameUpToSpareBits(s, t, n)
    ensures SameUpToSpareBits(head + s, head + t, |head| + n)
  {
    assert (head + s)[..|head| + n] == head + s[..n] && (head + t)[..|head| + n] == head + t[..n];
    if n < |s| {
      assert (head + s)[|head| + n + 1..] == s[n + 1..] && (head + t)[|head| + n + 1..] == t[n + 1..];
    }
  }

  lemma {:induction false} EncodedLength(b: Bytes)
    ensures |Encode(STD, b)| == (|b| + 2) / 3 * 4
  {
    if |b| >= 3 {
      EncodedLength(b[3..]);
    }
  }

  lemma {:induction false} SkipShortens(s: string)
    ensures |SkipNewlines(s)| <= |s|
  {
    if s != [] {
      SkipShortens(s[1..]);
    }
  }

  /** Whatever decodes is, line breaks aside, the encoding of what it decodes to,
      but for unused bits: no other character, length or padding is accepted. */
  lemma DecodeExact(e: Encoding, s: string)
    requires Decode(e, s).Some?
    ensures var b := Decode(e, s).value; SameUpToSpareBits(SkipNewlines(s), Encode(e, b), Determined(b))
  {
    GroupsExact(e, SkipNewlines(s), Decode(e, s).value);
  }

  lemma DecodedLength(s: string)
    requires Decode(STD, s).Some?
    ensures (|Decode(STD, s).value| + 2) / 3 * 4 <= |s|
  {
    DecodeExact(STD, s);
    EncodedLength(Decode(STD, s).value);
    SkipShortens(s);
  }

  /** Test vectors of section 10 of RFC 4648, one for each kind of tail. */
  lemma EncodeVectors()
    ensures Encode(STD, []) == "" && Encode(STD, [102]) == "Zg==" && Encode(STD, [102, 111]) == "Zm8="
    ensures Encode(STD, [102, 111, 111]) == "Zm9v"
  {
    var foo: Bytes := [102, 111, 111];
    assert foo[3..] == [] && Encode(STD, foo[3..]) == "";
  }

  /** The alphabets of sections 4 and 5 of RFC 4648: letters, small letters,
      digits and two more. */
  lemma Alphabets(i: nat)
    ensures i < 26 ==> CharOf(STD, i) as int == 'A' as int + i && CharOf(STD, i + 26) as int == 'a' as int + i
    ensures i < 10 ==> CharOf(STD, i + 52) as int == '0' as int + i
    ensures CharOf(STD, 62) == '+' && CharOf(STD, 63) == '/'
    ensures CharOf(RAW_URL, 62) == '-' && CharOf(RAW_URL, 63) == '_'
    ensures i < 62 ==> CharOf(RAW_URL, i) == CharOf(STD, i)
  {}

  lemma AlphabetGroup(e: Encoding, g: string)
    requires 2 <= |g| <= 4 && InAlphabet(e, g)
    ensures GroupBytes(e, g).Some?
  {}

  lemma {:induction false} AlphabetGroups(s: string)
    requires InAlphabet(STD, s)
    ensures DecodeGroups(STD, s).Some? <==> |s| % 4 == 0
    ensures DecodeGroups(STD, s).Some? ==> |DecodeGroups(STD, s).value| == |s| / 4 * 3
  {
    if |s| > 4 {
      AlphabetCut(s, 4);
      AlphabetGroup(STD, s[..4]);
      AlphabetGroups(s[4..]);
    } else if |s| == 4 {
      assert s[3] != '=' by { assert ValueOf(STD, s[3]).Some?; }
      AlphabetGroup(STD, s);
    }
  }

  lemma AlphabetCut(s: string, n: nat)
    requires InAlphabet(STD, s) && n <= |s|
    ensures InAlphabet(STD, s[..n]) && InAlphabet(STD, s[n..])
  {}

  /** Text without padding decodes in the standard encoding exactly when its
      length is a multiple of four, to three bytes for every four characters. */
  lemma AlphabetDecodes(s: string)
    requires InAlphabet(STD, s)
    ensures Decode(STD, s).Some? <==> |s| % 4 == 0
    ensures Decode(STD, s).Some? ==> |Decode(STD, s).value| == |s| / 4 * 3
  {
    assert NoNewlines(s) by {
      forall i | 0 <= i < |s| ensures s[i] != '\r' && s[i] != '\n' {
        assert ValueOf(STD, s[i]).Some?;
      }
    }
    SkipNothing(s);
    AlphabetGroups(s);
  }

  // ----- hexadecimal -----

  function NibbleOf(c: char): Option<nat> {
    if '0' <= c <= '9' then Some(c as int - '0' as int)
    else if 'a' <= c <= 'f' then Some(c as int - 'a' as int + 10)
    else if 'A' <= c <= 'F' then Some(c as int - 'A' as int + 10)
    else None
  }

  predicate IsHex(s: string) {
    forall i | 0 <= i < |s| :: NibbleOf(s[i]).Some?
  }

  /** hex.DecodeString. */
  function HexDecode(s: string): Option<Bytes> {
    if s == [] then Some([])
    else if |s| == 1 || NibbleOf(s[0]).None? || NibbleOf(s[1]).None? then None
    else
      match HexDecode(s[2..])
      case None => None
      case Some(rest) => Some([NibbleOf(s[0]).value * 16 + NibbleOf(s[1]).value] + rest)
  }

  /** hex.EncodeToString. */
  function HexEncode(b: Bytes): string {
    if b == [] then "" else [HexChar(b[0] / 16), HexChar(b[0] % 16)] + HexEncode(b[1..])
  }

  function HexChar(n: nat): char
    requires n < 16
  {
    if n < 10 then CharAt('0', n) else CharAt('a', n - 10)
  }

  /** Text decodes as hexadecimal exactly when it is an even number of hex digits. */
  lemma {:induction false} HexDecodesIff(s: string)
    ensures HexDecode(s).Some? <==> IsHex(s) && |s| % 2 == 0
    ensures HexDecode(s).Some? ==> |HexDecode(s).value| == |s| / 2
  {
    if |s| >= 2 {
      HexDecodesIff(s[2..]);
      assert IsHex(s) <==> NibbleOf(s[0]).Some? && NibbleOf(s[1]).Some? && IsHex(s[2..]) by {
        assert forall i | 2 <= i < |s| :: s[i] == s[2..][i - 2];
      }
    }
  }

  lemma HexCharValue(n: nat)
    requires n < 16
    ensures NibbleOf(HexChar(n)) == Some(n)
  {}

  lemma {:induction false} HexRoundTrip(b: Bytes)
    ensures HexDecode(HexEncode(b)) == Some(b)
    ensures IsHex(HexEncode(b)) && |HexEncode(b)| == 2 * |b|
  {
    if b != [] {
      HexRoundTrip(b[1..]);
      HexCharValue(b[0] / 16);
      HexCharValue(b[0] % 16);
      assert HexEncode(b)[2..] == HexEncode(b[1..]);
      assert [b[0] / 16 * 16 + b[0] % 16] + b[1..] == b;
    }
  }

  function LowerHex(c: char): char {
    if 'A' <= c <= 'F' then (c as int + 32) as char else c
  }

  function LowerHexText(s: string): string {
    if s == "" then "" else [LowerHex(s[0])] + LowerHexText(s[1..])
  }

  lemma NibbleExact(c: char, n: nat)
    requires n < 16
    ensures NibbleOf(c) == Some(n) <==> LowerHex(c) == HexChar(n)
  {}

  lemma PairExact(c: char, d: char, x: Byte)
    ensures NibbleOf(c).Some? && NibbleOf(d).Some? && x == NibbleOf(c).value * 16 + NibbleOf(d).value
            <==> LowerHex(c) == HexChar(x / 16) && LowerHex(d) == HexChar(x % 16)
  {
    NibbleExact(c, x / 16);
    NibbleExact(d, x % 16);
    if NibbleOf(c).Some? && NibbleOf(d).Some? {
      assert NibbleOf(c).value < 16 && NibbleOf(d).value < 16;
    }
  }

  /** The digits of section 8 of RFC 4648, in small letters. */
  lemma HexDigits(n: nat)
    ensures n < 10 ==> HexChar(n) as int == '0' as int + n
    ensures 10 <= n < 16 ==> HexChar(n) as int == 'a' as int + n - 10
  {}

  /** Text decodes to bytes as hexadecimal exactly when it is how they are
      spelled, capital or small. */
  lemma {:induction false} HexExact(s: string, b: Bytes)
    ensures HexDecode(s) == Some(b) <==> LowerHexText(s) == HexEncode(b)
    decreases |b|
  {
    if |s| >= 2 && b != [] {
      assert s[1..][1..] == s[2..];
      assert LowerHexText(s) == [LowerHex(s[0]), LowerHex(s[1])] + LowerHexText(s[2..]);
      HexExact(s[2..], b[1..]);
      PairExact(s[0], s[1], b[0]);
      HexHead(LowerHex(s[0]), LowerHex(s[1]), LowerHexText(s[2..]), b);
      assert b == [b[0]] + b[1..];
    } else if |s| == 1 {
      assert LowerHexText(s) == [LowerHex(s[0])];
    }
  }

  lemma HexHead(c: char, d: char, t: string, b: Bytes)
    requires b != []
    ensures [c, d] + t == HexEncode(b) <==> c == HexChar(b[0] / 16) && d == HexChar(b[0] % 16) && t == HexEncode(b[1..])
  {
    assert ([c, d] + t)[2..] == t && HexEncode(b)[2..] == HexEncode(b[1..]);
  }

  lemma HexIsInAlphabet(s: string)
    requires IsHex(s)
    ensures InAlphabet(STD, s)
  {
    forall i | 0 <= i < |s| ensures ValueOf(STD, s[i]).Some? {
      assert NibbleOf(s[i]).Some?;
    }
  }
}
