/** The key encryption key: where it comes from and how the value of
    WHALESHELL_SECRETS_KEK is read (secrets/kek.go). */
module Kek {
  import opened Wrappers
  import opened Strings
  import opened Base64
  import opened Crypto

  // ----- ParseEnvKEK -----

  /** Which of the three accepted notations a value was taken to be in. */
  datatype Reading = ByBase64(material: Bytes) | ByHex(material: Bytes) | Passphrase(material: Bytes)

  function ReadMaterial(lib: Library, v: string): Reading {
    var b64 := Decode(STD, v);
    if b64.Some? && |b64.value| >= 16 then ByBase64(b64.value)
    else
      var hex := HexDecode(v);
      if hex.Some? && |hex.value| >= 16 then ByHex(hex.value)
      else Passphrase(lib.toBytes(v))
  }

  function DeriveKek(lib: Library, material: Bytes): Bytes {
    lib.sha256(material)
  }

  /** None stands for the "empty" error. */
  function ParseEnvKek(lib: Library, v: string): Option<Bytes> {
    var t := TrimSpace(v);
    if t == "" then None else Some(DeriveKek(lib, ReadMaterial(lib, t).material))
  }

  /** Every value that is not blank yields 32 bytes, blank ones are refused,
      and white space around a value does not matter. */
  lemma ParseEnvTotal(lib: Library, before: string, v: string, after: string)
    requires lib.Lawful() && AllSpace(before) && AllSpace(after)
    ensures ParseEnvKek(lib, v).None? <==> AllSpace(v)
    ensures ParseEnvKek(lib, v).Some? ==> |ParseEnvKek(lib, v).value| == KEK_BYTES
    ensures ParseEnvKek(lib, before + v + after) == ParseEnvKek(lib, v)
  {
    TrimAbsorbs(before, v, after);
    BlankIff(v);
  }

  lemma BothDecoders(h: string, n: nat)
    requires IsHex(h) && |h| == 2 * n
    ensures Decode(STD, h).Some? <==> n % 2 == 0
    ensures Decode(STD, h).Some? ==> 2 * |Decode(STD, h).value| == 3 * n
    ensures HexDecode(h).Some? && |HexDecode(h).value| == n
  {
    HexIsInAlphabet(h);
    AlphabetDecodes(h);
    HexDecodesIff(h);
    QuarterOfTwice(n);
  }

  lemma QuarterOfTwice(n: nat)
    ensures 2 * n % 4 == 0 <==> n % 2 == 0
    ensures n % 2 == 0 ==> 2 * (2 * n / 4 * 3) == 3 * n
    ensures 2 * n % 2 == 0 && 2 * n / 2 == n
  {
    var m := n / 2;
    if n == 2 * m {
      Quotient(2 * n, m, 0);
    } else {
      Quotient(2 * n, m, 2);
    }
  }

  lemma Quotient(x: nat, m: nat, r: nat)
    requires x == 4 * m + r && r < 4
    ensures x / 4 == m && x % 4 == r
  {}

  /** Which key a value that is not blank gives: the digest of the bytes it
      decodes to when they are at least 16, base64 before hexadecimal, and else
      of the text itself. */
  lemma ParseEnvMeaning(lib: Library, v: string)
    requires !AllSpace(v)
    ensures var t := TrimSpace(v);
            var b64, hex := Decode(STD, t), HexDecode(t);
            ParseEnvKek(lib, v) == Some(lib.sha256(
              if b64.Some? && |b64.value| >= 16 then b64.value
              else if hex.Some? && |hex.value| >= 16 then hex.value
              else lib.toBytes(t)))
  {
    BlankIff(v);
  }

  /** Fewer than 24 characters are always a passphrase: they are too few for 16
      bytes in either notation. */
  lemma ShortIsPassphrase(lib: Library, v: string)
    requires !AllSpace(v) && |TrimSpace(v)| < 24
    ensures ParseEnvKek(lib, v) == Some(lib.sha256(lib.toBytes(TrimSpace(v))))
  {
    TooShort(TrimSpace(v));
    ParseEnvMeaning(lib, v);
  }

  lemma TooShort(t: string)
    requires |t| < 24
    ensures Decode(STD, t).Some? ==> |Decode(STD, t).value| < 16
    ensures HexDecode(t).Some? ==> |HexDecode(t).value| < 16
  {
    if Decode(STD, t).Some? { DecodedLength(t); }
    HexDecodesIff(t);
  }

  /** How every string of hexadecimal digits that spells n bytes is read. With
      n >= 16 the documented hex notation is honoured only for odd n: an even
      one is always taken as base64, whose material is half as long again. */
  lemma HexReading(lib: Library, h: string, n: nat)
    requires IsHex(h) && |h| == 2 * n
    ensures ReadMaterial(lib, h).ByBase64? <==> n % 2 == 0 && n >= 12
    ensures ReadMaterial(lib, h).ByHex? <==> n % 2 == 1 && n >= 17
    ensures ReadMaterial(lib, h).ByHex? ==> HexDecode(h) == Some(ReadMaterial(lib, h).material)
    ensures ReadMaterial(lib, h).ByBase64? ==> 2 * |ReadMaterial(lib, h).material| == 3 * n
  {
    BothDecoders(h, n);
  }

  lemma EncodedIsTrimmed(s: string)
    requires forall i | 0 <= i < |s| :: '+' <= s[i] <= 'z'
    ensures TrimSpace(s) == s
  {
    assert forall i | 0 <= i < |s| :: !IsSpace(s[i]);
    TrimFixedIff(s);
  }

  lemma {:induction false} EncodeCharacters(b: Bytes)
    ensures forall i | 0 <= i < |Encode(STD, b)| :: '+' <= Encode(STD, b)[i] <= 'z'
  {
    assert forall v: Sextet :: '+' <= CharOf(STD, v) <= 'z';
    if |b| >= 3 {
      EncodeCharacters(b[3..]);
    }
  }

  lemma {:induction false} HexCharacters(b: Bytes)
    ensures forall i | 0 <= i < |HexEncode(b)| :: '+' <= HexEncode(b)[i] <= 'z'
  {
    if b != [] {
      HexCharacters(b[1..]);
    }
  }

  /** Material of at least 16 bytes written in standard base64 is recovered. */
  lemma Base64MaterialRecovered(lib: Library, b: Bytes)
    requires |b| >= 16
    ensures ParseEnvKek(lib, Encode(STD, b)) == Some(lib.sha256(b))
  {
    EncodeCharacters(b);
    EncodedIsTrimmed(Encode(STD, b));
    EncodeShape(STD, b);
    RoundTrip(STD, b);
  }

  /** Material of at least 16 bytes written in hexadecimal is what the key is
      derived from exactly when its length is odd. */
  lemma HexMaterialRecoveredIff(lib: Library, b: Bytes)
    requires |b| >= 16
    ensures ReadMaterial(lib, TrimSpace(HexEncode(b))).material == b <==> |b| % 2 == 1
  {
    HexCharacters(b);
    EncodedIsTrimmed(HexEncode(b));
    HexRoundTrip(b);
    HexReading(lib, HexEncode(b), |b|);
  }

  // ----- Inspect -----

  datatype Source = FromEnv | FromFile | NoSource

  datatype Status = Status(source: Source, pinned: bool, path: string)

  /** What the directory holds under a name. */
  datatype Entry = Absent | Directory | File(content: Bytes)

  function Inspect(env: string, entry: Entry, path: string): Status {
    if TrimSpace(env) != "" then Status(FromEnv, true, "")
    else if entry.File? && |entry.content| >= KEK_BYTES then Status(FromFile, false, path)
    else Status(NoSource, false, path)
  }

  /** The branch loadOrCreateKEK takes; a read of the key file may also fail
      for reasons of its own (readFails). */
  datatype Branch = UseEnv(parsed: Option<Bytes>) | UseFile(key: Bytes) | Generate

  function ChooseKey(lib: Library, env: string, entry: Entry, readFails: bool): Branch {
    if TrimSpace(env) != "" then UseEnv(ParseEnvKek(lib, TrimSpace(env)))
    else if entry.File? && !readFails && |entry.content| >= KEK_BYTES then
      UseFile(entry.content[..KEK_BYTES])
    else Generate
  }

  /** Inspect names the branch that opening takes, except exactly when the key
      file is sound but cannot be read: then opening makes a new key. A key is
      pinned exactly when it comes from the environment, and only otherwise is
      there a path; the key in a file is its first 32 bytes. */
  lemma InspectPredictsIff(lib: Library, env: string, entry: Entry, path: string, readFails: bool)
    requires lib.Lawful()
    ensures var s := Inspect(env, entry, path).source;
            var b := ChooseKey(lib, env, entry, readFails);
            && (s.FromEnv? <==> b.UseEnv?) && (b.UseEnv? <==> !AllSpace(env))
            && (Inspect(env, entry, path).pinned <==> b.UseEnv?)
            && Inspect(env, entry, path).path == (if b.UseEnv? then "" else path)
            && (b.UseFile? <==> AllSpace(env) && !readFails && entry.File? && |entry.content| >= 32)
            && (b.UseFile? ==> |b.key| == 32 && b.key <= entry.content)
            && ((s.FromFile? <==> b.UseFile?) <==> !(s.FromFile? && readFails))
            && (b.UseEnv? ==> b.parsed.Some? && |b.parsed.value| == KEK_BYTES && b.parsed == ParseEnvKek(lib, env))
  {
    TrimFixedIff(env);
    BlankIff(env);
    ParseEnvTotal(lib, "", TrimSpace(env), "");
    var _, _ := TrimParts(env);
  }
}
