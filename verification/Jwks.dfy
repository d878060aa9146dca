/** The issuer's key set: decoding one JWK (section 6.3.1 of RFC 7518) and
    naming the keys of a JWKS document (idp/oidc.go). */
module Jwks {
  import opened Wrappers
  import opened Strings
  import opened Base64
  import opened Int64

  datatype Jwk = Jwk(kty: string, kid: string, n: string, e: string)

  datatype Key = Key(n: nat, e: int)

  // ----- one key -----

  function BigEndian(b: Bytes): nat {
    if b == [] then 0 else 256 * BigEndian(b[..|b| - 1]) + b[|b| - 1]
  }

  /** The value from its most significant byte. */
  lemma {:induction false} BigEndianHead(a: Byte, b: Bytes)
    ensures BigEndian([a] + b) == a * Pow256(|b|) + BigEndian(b)
  {
    if b == [] {
      assert [a] + b == [a] && [a][..0] == [];
    } else {
      var init := b[..|b| - 1];
      assert ([a] + b)[..|b|] == [a] + init;
      BigEndianHead(a, init);
      assert Pow256(|b|) == 256 * Pow256(|init|);
      assert 256 * (a * Pow256(|init|)) == a * Pow256(|b|);
    }
  }

  /** The exponent of decoded bytes: their value as a wrapping 64-bit integer,
      where 65537 stands in for zero. */
  function Exponent(b: Bytes): int {
    var v := Wrap64(BigEndian(b));
    if v == 0 then 65537 else v
  }

  /** The loop eInt = eInt<<8 + int(b). */
  method AccumulateExponent(b: Bytes) returns (e: int)
    ensures e == Exponent(b)
  {
    e := 0;
    for i := 0 to |b|
      invariant e == Wrap64(BigEndian(b[..i]))
    {
      WrapScaled(BigEndian(b[..i]));
      WrapInside(256 * BigEndian(b[..i]), b[i]);
      assert b[..i + 1][..i] == b[..i];
      e := Wrap64(Wrap64(256 * e) + b[i]);
    }
    assert b[..|b|] == b;
    if e == 0 {
      e := 65537;
    }
  }

  /** The exponent is the big-endian value exactly when that is positive and
      fits 63 bits. */
  lemma ExponentExactIff(b: Bytes)
    ensures Exponent(b) == BigEndian(b) <==> 0 < BigEndian(b) <= MAX64
  {}

  lemma {:induction false} LeadingZeros(b: Bytes, zeros: nat)
    ensures BigEndian(seq(zeros, _ => 0) + b) == BigEndian(b)
  {
    var z: Bytes := seq(zeros, _ => 0);
    if b != [] {
      assert (z + b)[..|z + b| - 1] == z + b[..|b| - 1];
      LeadingZeros(b[..|b| - 1], zeros);
    } else if zeros > 0 {
      assert z + b == z && z[..zeros - 1] == seq(zeros - 1, _ => 0) + b;
      LeadingZeros(b, zeros - 1);
    }
  }

  function Pow256(n: nat): nat {
    if n == 0 then 1 else 256 * Pow256(n - 1)
  }

  lemma {:induction false} BigEndianBound(b: Bytes)
    ensures BigEndian(b) < Pow256(|b|)
  {
    if b != [] {
      BigEndianBound(b[..|b| - 1]);
    }
  }

  /** Seven significant bytes after any leading zeros are always read exactly,
      unless they are zero, which reads as 65537. */
  lemma SevenBytesExact(b: Bytes, zeros: nat)
    requires |b| <= 7
    ensures Exponent(seq(zeros, _ => 0) + b) == if BigEndian(b) == 0 then 65537 else BigEndian(b)
  {
    LeadingZeros(b, zeros);
    BigEndianBound(b);
    Pow256Grows(|b|, 7);
    assert Pow256(7) == 0x100_0000_0000_0000;
  }

  lemma {:induction false} Pow256Grows(m: nat, n: nat)
    requires m <= n
    ensures Pow256(m) <= Pow256(n)
  {
    if m < n {
      Pow256Grows(m, n - 1);
    }
  }

  /** jwkToRSA. */
  function ToKey(k: Jwk): Option<Key> {
    var nb, eb := Decode(RAW_URL, k.n), Decode(RAW_URL, k.e);
    if nb.None? || eb.None? then None else Some(Key(BigEndian(nb.value), Exponent(eb.value)))
  }

  /** A JWK gives back the modulus and the exponent it was made of. */
  lemma KeyRoundTrip(kid: string, n: Bytes, e: Bytes)
    requires 0 < BigEndian(e) <= MAX64
    ensures ToKey(Jwk("RSA", kid, Encode(RAW_URL, n), Encode(RAW_URL, e))) == Some(Key(BigEndian(n), BigEndian(e)))
  {
    RoundTrip(RAW_URL, n);
    RoundTrip(RAW_URL, e);
    ExponentExactIff(e);
  }

  // ----- the key set -----

  predicate Usable(k: Jwk) {
    k.kty == "RSA" && k.n != "" && k.e != "" && ToKey(k).Some?
  }

  /** A usable key with the kid it came with. */
  function Read(k: Jwk): Option<(string, Key)> {
    if Usable(k) then Some((k.kid, ToKey(k).value)) else None
  }

  /** What a reading makes of the entries that it can read, in order. */
  function ReadAll(doc: seq<Jwk>, read: Jwk -> Option<(string, Key)>): seq<(string, Key)> {
    if doc == [] then []
    else
      var r := read(doc[|doc| - 1]);
      ReadAll(doc[..|doc| - 1], read) + (if r.Some? then [r.value] else [])
  }

  function UsableKeys(doc: seq<Jwk>): seq<(string, Key)> {
    ReadAll(doc, Read)
  }

  /** A key is usable exactly when it is an RSA key both of whose parts are given
      and decode. */
  lemma UsableMeaning(k: Jwk)
    ensures Usable(k) <==> k.kty == "RSA" && k.n != "" && k.e != ""
                           && Decode(RAW_URL, k.n).Some? && Decode(RAW_URL, k.e).Some?
  {}

  lemma {:induction false} ReadConcat(a: seq<Jwk>, b: seq<Jwk>, read: Jwk -> Option<(string, Key)>)
    ensures ReadAll(a + b, read) == ReadAll(a, read) + ReadAll(b, read)
  {
    if b == [] {
      assert a + b == a && ReadAll(a, read) + [] == ReadAll(a, read);
    } else {
      assert (a + b)[..|a + b| - 1] == a + b[..|b| - 1];
      ReadConcat(a, b[..|b| - 1], read);
    }
  }

  lemma ReadOne(k: Jwk, read: Jwk -> Option<(string, Key)>)
    ensures ReadAll([k], read) == if read(k).Some? then [read(k).value] else []
  {
    assert [k][..0] == [];
  }

  lemma ReadNone(a: seq<Jwk>, k: Jwk, b: seq<Jwk>, read: Jwk -> Option<(string, Key)>)
    requires read(k).None?
    ensures ReadAll(a + [k] + b, read) == ReadAll(a + b, read)
  {
    ReadConcat(a + [k], b, read);
    ReadConcat(a, [k], read);
    ReadOne(k, read);
    ReadConcat(a, b, read);
    assert ReadAll(a, read) + [] == ReadAll(a, read);
  }

  /** An entry that is not a usable RSA key is as if it were not there. */
  lemma UnusableIsSkipped(a: seq<Jwk>, k: Jwk, b: seq<Jwk>)
    requires k.kty != "RSA" || k.n == "" || k.e == "" || Decode(RAW_URL, k.n).None? || Decode(RAW_URL, k.e).None?
    ensures KeySet(UsableKeys(a + [k] + b)) == KeySet(UsableKeys(a + b))
  {
    UsableMeaning(k);
    ReadNone(a, k, b, Read);
  }

  function NameAt(kid: string, count: nat): string {
    if kid == "" then "key-" + Decimal(count) else kid
  }

  /** Later keys replace earlier ones of the same name; a missing kid is made up
      from the number of names so far. */
  function KeySet(usable: seq<(string, Key)>): map<string, Key> {
    if usable == [] then map[]
    else
      var keys := KeySet(usable[..|usable| - 1]);
      var (kid, key) := usable[|usable| - 1];
      keys[NameAt(kid, |keys|) := key]
  }

  lemma KeySetAppend(usable: seq<(string, Key)>, kid: string, key: Key)
    ensures var keys := KeySet(usable); KeySet(usable + [(kid, key)]) == keys[NameAt(kid, |keys|) := key]
  {
    assert (usable + [(kid, key)])[..|usable|] == usable;
  }

  /** The filter of ensureKeys and jwkToRSA, for one entry. */
  method ReadKey(k: Jwk) returns (r: Option<(string, Key)>)
    ensures r == Read(k)
  {
    if k.kty != "RSA" || k.n == "" || k.e == "" {
      return None;
    }
    var nb, eb := Decode(RAW_URL, k.n), Decode(RAW_URL, k.e);
    if nb.None? || eb.None? {
      return None;
    }
    var e := AccumulateExponent(eb.value);
    return Some((k.kid, Key(BigEndian(nb.value), e)));
  }

  /** The loop of ensureKeys over the document. */
  method CollectKeys(doc: seq<Jwk>) returns (keys: map<string, Key>)
    ensures keys == KeySet(UsableKeys(doc))
  {
    keys := map[];
    ghost var usable: seq<(string, Key)> := [];
    for i := 0 to |doc|
      invariant usable == ReadAll(doc[..i], Read) && keys == KeySet(usable)
    {
      var r := ReadKey(doc[i]);
      ReadNext(doc, i, Read, r);
      if r.None? {
        continue;
      }
      var kid := r.value.0;
      if kid == "" {
        kid := "key-" + Decimal(|keys|);
      }
      KeySetAppend(usable, r.value.0, r.value.1);
      keys := keys[kid := r.value.1];
      usable := usable + [r.value];
    }
    assert doc[..|doc|] == doc;
  }

  lemma ReadNext(doc: seq<Jwk>, i: nat, read: Jwk -> Option<(string, Key)>, r: Option<(string, Key)>)
    requires i < |doc| && read(doc[i]) == r
    ensures ReadAll(doc[..i + 1], read) == ReadAll(doc[..i], read) + (if r.Some? then [r.value] else [])
    ensures r.None? ==> ReadAll(doc[..i + 1], read) == ReadAll(doc[..i], read)
  {
    assert doc[..i + 1][..i] == doc[..i];
    assert ReadAll(doc[..i], read) + [] == ReadAll(doc[..i], read);
  }

  /** The names the keys get when none is lost: positions fill in for kids. */
  function Names(usable: seq<(string, Key)>): seq<string> {
    seq(|usable|, i requires 0 <= i < |usable| => NameAt(usable[i].0, i))
  }

  predicate Distinct(names: seq<string>) {
    forall i, j | 0 <= i < j < |names| :: names[i] != names[j]
  }

  lemma {:induction false} KeySetSize(usable: seq<(string, Key)>)
    ensures |KeySet(usable)| <= |usable|
    ensures forall n | n in KeySet(usable) :: exists i :: 0 <= i < |usable| && KeySet(usable)[n] == usable[i].1
  {
    if usable != [] {
      var init := usable[..|usable| - 1];
      KeySetSize(init);
      forall n | n in KeySet(usable) ensures exists i :: 0 <= i < |usable| && KeySet(usable)[n] == usable[i].1 {
        if KeySet(usable)[n] != usable[|usable| - 1].1 {
          var i :| 0 <= i < |init| && KeySet(init)[n] == init[i].1;
          assert KeySet(usable)[n] == usable[i].1;
        }
      }
    }
  }

  lemma NamesPrefix(usable: seq<(string, Key)>)
    requires usable != []
    ensures Names(usable) == Names(usable[..|usable| - 1]) + [NameAt(usable[|usable| - 1].0, |usable| - 1)]
  {}

  lemma UpdateSize(keys: map<string, Key>, name: string, key: Key)
    ensures |keys[name := key]| == |keys| + (if name in keys then 0 else 1)
  {
    assert keys[name := key].Keys == keys.Keys + {name};
  }

  /** With distinct positional names the set maps exactly those names, each to its key. */
  ghost predicate AllKept(usable: seq<(string, Key)>) {
    var keys, names := KeySet(usable), Names(usable);
    && |keys| == |usable|
    && (forall n :: n in keys <==> n in names)
    && (forall i | 0 <= i < |usable| :: names[i] in keys && keys[names[i]] == usable[i].1)
  }

  lemma {:induction false} DistinctKeepsAll(usable: seq<(string, Key)>)
    requires Distinct(Names(usable))
    ensures AllKept(usable)
  {
    if usable != [] {
      var last := |usable| - 1;
      var init := usable[..last];
      NamesPrefix(usable);
      var before, names := Names(init), Names(usable);
      assert forall i | 0 <= i < last :: before[i] == names[i];
      DistinctKeepsAll(init);
      assert names[last] !in before;
      assert usable == init + [usable[last]];
      assert forall i | 0 <= i < last :: usable[i] == init[i];
      KeySetAppend(init, usable[last].0, usable[last].1);
      UpdateSize(KeySet(init), names[last], usable[last].1);
    }
  }

  lemma DistinctAppend(names: seq<string>, name: string)
    requires Distinct(names) && name !in names
    ensures Distinct(names + [name])
  {}

  lemma {:induction false} FullSizeIsDistinct(usable: seq<(string, Key)>)
    requires |KeySet(usable)| == |usable|
    ensures Distinct(Names(usable))
  {
    if usable != [] {
      var last := |usable| - 1;
      var init := usable[..last];
      var (kid, key) := usable[last];
      var name := NameAt(kid, |KeySet(init)|);
      KeySetSize(init);
      UpdateSize(KeySet(init), name, key);
      FullSizeIsDistinct(init);
      DistinctKeepsAll(init);
      NamesPrefix(usable);
      DistinctAppend(Names(init), name);
    }
  }

  /** Every usable key of the document is kept, under its positional name,
      exactly when those names are pairwise distinct. */
  lemma NoKeyLostIff(usable: seq<(string, Key)>)
    ensures |KeySet(usable)| == |usable| <==> Distinct(Names(usable))
    ensures Distinct(Names(usable)) ==> AllKept(usable)
  {
    if Distinct(Names(usable)) { DistinctKeepsAll(usable); }
    if |KeySet(usable)| == |usable| { FullSizeIsDistinct(usable); }
  }

  /** In particular when all kids are given and differ, and when none is given. */
  lemma PlainDocumentsLoseNothing(usable: seq<(string, Key)>)
    requires || (forall i | 0 <= i < |usable| :: usable[i].0 == "")
             || (forall i, j | 0 <= i < j < |usable| ::
                   usable[i].0 != "" && usable[j].0 != "" && usable[i].0 != usable[j].0)
    ensures |KeySet(usable)| == |usable|
    ensures forall i | 0 <= i < |usable| ::
              var name := if usable[i].0 == "" then "key-" + Decimal(i) else usable[i].0;
              name in KeySet(usable) && KeySet(usable)[name] == usable[i].1
  {
    NoKeyLostIff(usable);
    var names := Names(usable);
    forall i, j | 0 <= i < j < |usable| ensures names[i] != names[j] {
      if names[i] == names[j] {
        assert names[i][4..] == Decimal(i) && names[j][4..] == Decimal(j);
        DecimalInjective(i, j);
      }
    }
  }

  /** A kid that looks like a made-up name can cost a key. */
  lemma MadeUpNameCollides(a: Key, b: Key)
    ensures KeySet([("key-1", a), ("", b)]) == map["key-1" := b]
  {
    KeySetAppend([], "key-1", a);
    KeySetAppend([("key-1", a)], "", b);
    assert [] + [("key-1", a)] == [("key-1", a)];
    assert [("key-1", a)] + [("", b)] == [("key-1", a), ("", b)];
    assert Decimal(1) == "1" && NameAt("", 1) == "key-1";
  }

  // ----- whole documents -----

  /** The parts of a key, as an issuer would publish them. */
  datatype Parts = Parts(kid: string, n: Bytes, e: Bytes)

  function AsJwk(p: Parts): Jwk {
    Jwk("RSA", p.kid, Encode(RAW_URL, p.n), Encode(RAW_URL, p.e))
  }

  predicate Sound(p: Parts) {
    p.kid != "" && p.n != [] && 0 < BigEndian(p.e) <= MAX64
  }

  function Document(ps: seq<Parts>): seq<Jwk> {
    seq(|ps|, i requires 0 <= i < |ps| => AsJwk(ps[i]))
  }

  function Keys(ps: seq<Parts>): seq<(string, Key)> {
    seq(|ps|, i requires 0 <= i < |ps| => (ps[i].kid, Key(BigEndian(ps[i].n), BigEndian(ps[i].e))))
  }

  lemma PublishedUsable(p: Parts)
    requires Sound(p)
    ensures Usable(AsJwk(p)) && ToKey(AsJwk(p)) == Some(Key(BigEndian(p.n), BigEndian(p.e)))
  {
    KeyRoundTrip(p.kid, p.n, p.e);
    EncodeShape(RAW_URL, p.n);
    EncodeShape(RAW_URL, p.e);
  }

  lemma {:induction false} ReadEach(doc: seq<Jwk>, keys: seq<(string, Key)>, read: Jwk -> Option<(string, Key)>)
    requires |doc| == |keys| && forall i | 0 <= i < |doc| :: read(doc[i]) == Some(keys[i])
    ensures ReadAll(doc, read) == keys
  {
    if doc != [] {
      ReadEach(doc[..|doc| - 1], keys[..|keys| - 1], read);
    }
  }

  lemma DocumentKeys(ps: seq<Parts>)
    requires forall i | 0 <= i < |ps| :: Sound(ps[i])
    ensures UsableKeys(Document(ps)) == Keys(ps)
  {
    forall i | 0 <= i < |ps| ensures Read(Document(ps)[i]) == Some(Keys(ps)[i]) {
      PublishedUsable(ps[i]);
    }
    ReadEach(Document(ps), Keys(ps), Read);
  }

  /** An issuer that publishes keys under different names gets exactly those keys
      into the set, each under its own name with its own modulus and exponent. */
  lemma DocumentRoundTrip(ps: seq<Parts>)
    requires forall i | 0 <= i < |ps| :: Sound(ps[i])
    requires forall i, j | 0 <= i < j < |ps| :: ps[i].kid != ps[j].kid
    ensures var keys := KeySet(UsableKeys(Document(ps)));
            && |keys| == |ps|
            && forall i | 0 <= i < |ps| ::
                 ps[i].kid in keys && keys[ps[i].kid] == Key(BigEndian(ps[i].n), BigEndian(ps[i].e))
  {
    DocumentKeys(ps);
    PlainDocumentsLoseNothing(Keys(ps));
    assert forall i | 0 <= i < |ps| :: Keys(ps)[i].0 == ps[i].kid;
  }
}
