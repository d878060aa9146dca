/** Provider credentials inside the store: the key scheme
    provider/<name>/<ENV_KEY> and what writing, reading and deleting under it
    does to every provider (secrets/local.go). */
module Providers {
  import opened Wrappers
  import opened Strings
  import opened Base64
  import opened Crypto
  import opened SecretSpec

  function ProviderKey(provider: string, envKey: string): string {
    "provider/" + provider + "/" + envKey
  }

  function ProviderPrefix(provider: string): string {
    ProviderKey(provider, "")
  }

  lemma SlashFreeHead(p: string, rest: string, p': string, rest': string)
    requires '/' !in p && '/' !in p'
    requires p + "/" + rest == p' + "/" + rest'
    ensures p == p' && rest == rest'
  {
    var s := p + "/" + rest;
    assert s[..|p|] == p && s[..|p'|] == p';
    IndexOfUnique(s, '/', |p|);
    IndexOfUnique(s, '/', |p'|);
    assert s[|p| + 1..] == rest && s[|p'| + 1..] == rest';
  }

  /** Slash-free provider names never share a store key. */
  lemma ProviderKeyInjective(p: string, e: string, p': string, e': string)
    requires '/' !in p && '/' !in p'
    requires ProviderKey(p, e) == ProviderKey(p', e')
    ensures p == p' && e == e'
  {
    assert ProviderKey(p, e)[9..] == p + "/" + e;
    assert ProviderKey(p', e')[9..] == p' + "/" + e';
    SlashFreeHead(p, e, p', e');
  }

  /** One of the two provider names continues the other after a slash, and the
      other's credential makes up for it. */
  ghost predicate Overlap(p: string, e: string, p': string, e': string) {
    exists r: string :: p' == p + "/" + r && e == r + "/" + e'
  }

  /** Exactly when two credentials, of whatever providers, share a store key. */
  lemma SharedKeyIff(p: string, e: string, p': string, e': string)
    ensures ProviderKey(p, e) == ProviderKey(p', e')
            <==> (p == p' && e == e') || Overlap(p, e, p', e') || Overlap(p', e', p, e)
  {
    if ProviderKey(p, e) == ProviderKey(p', e') {
      if |p| <= |p'| { SharedKeyShorter(p, e, p', e'); } else { SharedKeyShorter(p', e', p, e); }
    }
    if Overlap(p, e, p', e') { OverlapShares(p, e, p', e'); }
    if Overlap(p', e', p, e) { OverlapShares(p', e', p, e); }
  }

  lemma OverlapShares(p: string, e: string, p': string, e': string)
    requires Overlap(p, e, p', e')
    ensures ProviderKey(p, e) == ProviderKey(p', e')
  {
    var r: string :| p' == p + "/" + r && e == r + "/" + e';
    assert p + "/" + (r + "/" + e') == p + "/" + r + "/" + e';
    KeyTail(p, e);
    KeyTail(p', e');
  }

  lemma KeyTail(p: string, e: string)
    ensures ProviderKey(p, e) == "provider/" + (p + "/" + e) && ProviderKey(p, e)[9..] == p + "/" + e
  {}

  lemma SharedKeyShorter(p: string, e: string, p': string, e': string)
    requires |p| <= |p'| && ProviderKey(p, e) == ProviderKey(p', e')
    ensures (p == p' && e == e') || Overlap(p, e, p', e')
  {
    KeyTail(p, e);
    KeyTail(p', e');
    var t := p + "/" + e;
    CutAtSlash(t, p, e);
    CutAtSlash(t, p', e');
    if |p| < |p'| {
      var r := t[|p| + 1..|p'|];
      assert t[..|p'|] == t[..|p|] + [t[|p|]] + r;
      assert t[|p| + 1..] == r + [t[|p'|]] + t[|p'| + 1..];
      assert p' == p + "/" + r && e == r + "/" + e';
    }
  }

  lemma CutAtSlash(t: string, p: string, e: string)
    requires t == p + "/" + e
    ensures |p| < |t| && t[..|p|] == p && t[|p|] == '/' && t[|p| + 1..] == e
  {}

  /** With a slash in a name two providers can share a credential. */
  lemma SlashesCollide()
    ensures ProviderKey("a/b", "c") == ProviderKey("a", "b/c")
    ensures ProviderPrefix("a") <= ProviderKey("a/b", "c")
  {
    assert "a/b" == "a" + "/" + "b" && "b/c" == "b" + "/" + "c";
    SharedKeyIff("a", "b/c", "a/b", "c");
    DeletePrefixHitsIff("a", "a/b", "c");
  }

  /** Deleting a slash-free provider's prefix removes the credentials of q
      exactly when q is that provider or a name that continues it after a slash. */
  lemma DeletePrefixHitsIff(p: string, q: string, e: string)
    requires '/' !in p
    ensures ProviderPrefix(p) <= ProviderKey(q, e) <==> q == p || p + "/" <= q
  {
    var k := ProviderKey(q, e);
    assert ProviderPrefix(p) == "provider/" + (p + "/");
    assert k == "provider/" + (q + "/" + e);
    var tail := q + "/" + e;
    assert tail[|q|] == '/';
    assert k[9..] == tail && k[..9] == "provider/";
    if ProviderPrefix(p) <= k {
      assert p + "/" <= tail by {
        forall i | 0 <= i < |p| + 1 ensures (p + "/")[i] == tail[i] {
          assert ProviderPrefix(p)[9 + i] == k[9 + i];
        }
      }
      assert forall i {:trigger tail[i]} | 0 <= i < |p| :: p[i] == tail[i] by {
        assert forall i | 0 <= i < |p| :: (p + "/")[i] == tail[i];
      }
      if |q| == |p| {
        assert q == p by { assert tail[..|p|] == p; }
      } else if |q| > |p| {
        assert q[..|p| + 1] == tail[..|p| + 1];
      }
    }
    if q == p || p + "/" <= q {
      assert ProviderPrefix(p) <= k;
    }
  }

  /** DeletePrefix on a slash-free provider removes all of its credentials and
      leaves every other slash-free provider's as they were. */
  lemma DeleteProvider(data: Secrets, p: string, q: string, e: string)
    requires '/' !in p && '/' !in q
    ensures var after := Apply(DeletePrefix(ProviderPrefix(p)), data);
            && (q == p ==> ProviderKey(q, e) !in after)
            && (q != p ==> SameAt(data, after, ProviderKey(q, e)))
  {
    DeletePrefixHitsIff(p, q, e);
    NoSlashPrefix(p, q);
  }

  lemma NoSlashPrefix(p: string, q: string)
    requires '/' !in q
    ensures !(p + "/" <= q)
  {
    assert (p + "/")[|p|] == '/';
  }

  ghost predicate SameAt(before: Secrets, after: Secrets, k: string) {
    (k in before <==> k in after) && (k in before ==> before[k] == after[k])
  }

  /** A store key built from a trimmed, non-empty name is itself trimmed. */
  lemma ProviderKeyTrimmed(provider: string, name: string)
    requires TrimSpace(name) != ""
    ensures var k := ProviderKey(provider, TrimSpace(name)); TrimSpace(k) == k
  {
    var n := TrimSpace(name);
    var _, _ := TrimParts(name);
    var k := ProviderKey(provider, n);
    assert k[0] == 'p' && k[|k| - 1] == n[|n| - 1];
    TrimFixedIff(k);
  }

  // ----- writing -----

  predicate Usable(name: string, value: string) {
    TrimSpace(name) != "" && TrimSpace(value) != ""
  }

  lemma UsableMeaning(name: string, value: string)
    ensures Usable(name, value) <==> !AllSpace(name) && !AllSpace(value)
  {
    BlankIff(name);
    BlankIff(value);
  }

  /** The trimmed names under which usable values are offered. */
  ghost function UsableNames(creds: map<string, string>): set<string> {
    set c | c in creds && Usable(c, creds[c]) :: TrimSpace(c)
  }

  /** v is one of the usable values offered for the trimmed name. */
  ghost predicate Offered(creds: map<string, string>, name: string, v: string) {
    exists c :: c in creds && Usable(c, creds[c]) && TrimSpace(c) == name && creds[c] == v
  }

  ghost predicate CredentialHeld(data: Secrets, provider: string, name: string, creds: map<string, string>) {
    var k := ProviderKey(provider, name);
    k in data && Offered(creds, name, data[k])
  }

  /** Only the offered credentials of this provider may differ, and then they
      hold an offered value. */
  ghost predicate CredentialsTouched(before: Secrets, after: Secrets, provider: string, creds: map<string, string>) {
    forall k: string :: SameAt(before, after, k)
      || (exists n :: n in UsableNames(creds) && k == ProviderKey(provider, n)
                      && CredentialHeld(after, provider, n, creds))
  }

  ghost predicate CredentialsWritten(after: Secrets, provider: string, creds: map<string, string>) {
    forall n | n in UsableNames(creds) :: CredentialHeld(after, provider, n, creds)
  }

  lemma PutTouches(start: Secrets, before: Secrets, after: Secrets, provider: string,
                   creds: map<string, string>, c: string)
    requires c in creds && Usable(c, creds[c])
    requires CredentialsTouched(start, before, provider, creds)
    requires after == before[ProviderKey(provider, TrimSpace(c)) := creds[c]]
    ensures CredentialsTouched(start, after, provider, creds)
    ensures CredentialHeld(after, provider, TrimSpace(c), creds)
    ensures forall n | CredentialHeld(before, provider, n, creds) :: CredentialHeld(after, provider, n, creds)
  {
    var name := TrimSpace(c);
    var key := ProviderKey(provider, name);
    assert Offered(creds, name, creds[c]);
    forall n | CredentialHeld(before, provider, n, creds) ensures CredentialHeld(after, provider, n, creds) {
      if ProviderKey(provider, n) == key {
        assert n == ProviderKey(provider, n)[|ProviderPrefix(provider)|..];
        assert name == key[|ProviderPrefix(provider)|..];
      }
    }
    forall k: string ensures SameAt(start, after, k)
      || (exists n :: n in UsableNames(creds) && k == ProviderKey(provider, n)
                      && CredentialHeld(after, provider, n, creds))
    {
      if k == key {
        assert name in UsableNames(creds);
      } else if !SameAt(start, before, k) {
        var n :| n in UsableNames(creds) && k == ProviderKey(provider, n)
                 && CredentialHeld(before, provider, n, creds);
      }
    }
  }

  ghost predicate AllFrom(order: seq<string>, creds: map<string, string>) {
    forall c | c in order :: c in creds
  }

  /** The loop over creds has met those of order, each once, and rest is left. */
  ghost predicate Visited(order: seq<string>, creds: map<string, string>, rest: set<string>) {
    && rest <= creds.Keys
    && (forall c :: c in order <==> c in creds && c !in rest)
    && (forall i, j | 0 <= i < j < |order| :: order[i] != order[j])
  }

  lemma VisitNext(order: seq<string>, creds: map<string, string>, rest: set<string>, c: string)
    requires Visited(order, creds, rest) && c in rest
    ensures Visited(order + [c], creds, rest - {c})
  {}

  /** What a loop over the offered credentials in a given order does: cache and
      files after it, and whether every flush succeeded. */
  datatype Progress = Progress(ok: bool, data: Secrets, files: Files)

  ghost function PutOne(lib: Library, key: Bytes, provider: string, creds: map<string, string>,
                        ios: string -> FlushIo, c: string, p: Progress): Progress
    requires c in creds
  {
    if !p.ok || !Usable(c, creds[c]) then p
    else
      var after := Apply(Put(ProviderKey(provider, TrimSpace(c)), creds[c]), p.data);
      Progress(FlushSucceeds(after, ios(c)), after, FlushFiles(lib, key, after, p.files, ios(c)))
  }

  ghost function PutAll(lib: Library, key: Bytes, provider: string, creds: map<string, string>,
                        ios: string -> FlushIo, order: seq<string>, start: Progress): Progress
    requires AllFrom(order, creds)
  {
    if order == [] then start
    else
      var last := |order| - 1;
      PutOne(lib, key, provider, creds, ios, order[last],
             PutAll(lib, key, provider, creds, ios, order[..last], start))
  }

  lemma PutAllNext(lib: Library, key: Bytes, provider: string, creds: map<string, string>,
                   ios: string -> FlushIo, order: seq<string>, c: string, start: Progress)
    requires AllFrom(order, creds) && c in creds
    ensures AllFrom(order + [c], creds)
    ensures PutAll(lib, key, provider, creds, ios, order + [c], start) ==
            PutOne(lib, key, provider, creds, ios, c, PutAll(lib, key, provider, creds, ios, order, start))
  {
    assert (order + [c])[..|order|] == order;
  }

  /** The store file holds a whole cache, as one completed flush left it, that
      differs from the first cache in offered credentials only. */
  ghost predicate StoresTouched(lib: Library, key: Bytes, before: Secrets, provider: string,
                                creds: map<string, string>, store: Option<Bytes>)
  {
    exists flushed: Secrets, nonces: Nonces ::
      && Drawn(nonces, flushed) && store == Some(StoreBytes(lib, key, nonces, flushed))
      && CredentialsTouched(before, flushed, provider, creds)
  }

  /** After any number of the puts, in any order: only offered credentials of
      the provider have changed in the cache, and the store file is as before or
      holds such a cache as a whole. As long as nothing failed, every usable
      credential met so far is held, and what the file holds is the cache. */
  ghost predicate PutsOk(lib: Library, key: Bytes, provider: string, creds: map<string, string>,
                         order: seq<string>, before: Progress, after: Progress)
    requires AllFrom(order, creds)
  {
    && CredentialsTouched(before.data, after.data, provider, creds)
    && after.files.kek == before.files.kek
    && (after.files.store == before.files.store
        || StoresTouched(lib, key, before.data, provider, creds, after.files.store))
    && (after.ok ==> MetAreHeld(after.data, provider, creds, order))
    && (after.ok && after != before ==> Stored(lib, key, after))
  }

  ghost predicate MetAreHeld(data: Secrets, provider: string, creds: map<string, string>, order: seq<string>)
    requires AllFrom(order, creds)
  {
    forall c | c in order && Usable(c, creds[c]) :: CredentialHeld(data, provider, TrimSpace(c), creds)
  }

  ghost predicate Stored(lib: Library, key: Bytes, p: Progress) {
    exists nonces: Nonces ::
      Drawn(nonces, p.data) && p.files.store == Some(StoreBytes(lib, key, nonces, p.data)) && p.files.tmp == None
  }

  lemma PutOneFiles(lib: Library, key: Bytes, provider: string, creds: map<string, string>,
                    ios: string -> FlushIo, c: string, before: Secrets, p: Progress)
    requires c in creds && p.ok && Usable(c, creds[c])
    requires CredentialsTouched(before, p.data, provider, creds)
    ensures var q := PutOne(lib, key, provider, creds, ios, c, p);
            && CredentialsTouched(before, q.data, provider, creds)
            && CredentialHeld(q.data, provider, TrimSpace(c), creds)
            && (forall n | CredentialHeld(p.data, provider, n, creds) :: CredentialHeld(q.data, provider, n, creds))
            && q.files.kek == p.files.kek
            && (q.ok ==> Stored(lib, key, q))
            && (q.files.store == p.files.store || StoresTouched(lib, key, before, provider, creds, q.files.store))
  {
    var q := PutOne(lib, key, provider, creds, ios, c, p);
    ProviderKeyTrimmed(provider, c);
    PutTouches(before, p.data, q.data, provider, creds, c);
  }

  lemma HeldNext(before: Secrets, after: Secrets, provider: string, creds: map<string, string>,
                 order: seq<string>, c: string)
    requires AllFrom(order, creds) && c in creds && MetAreHeld(before, provider, creds, order)
    requires forall n | CredentialHeld(before, provider, n, creds) :: CredentialHeld(after, provider, n, creds)
    requires Usable(c, creds[c]) ==> CredentialHeld(after, provider, TrimSpace(c), creds)
    ensures AllFrom(order + [c], creds) && MetAreHeld(after, provider, creds, order + [c])
  {}

  lemma PutOneOk(lib: Library, key: Bytes, provider: string, creds: map<string, string>,
                 ios: string -> FlushIo, order: seq<string>, c: string, start: Progress, p: Progress)
    requires AllFrom(order, creds) && c in creds && PutsOk(lib, key, provider, creds, order, start, p)
    ensures AllFrom(order + [c], creds)
    ensures PutsOk(lib, key, provider, creds, order + [c], start, PutOne(lib, key, provider, creds, ios, c, p))
  {
    var q := PutOne(lib, key, provider, creds, ios, c, p);
    if p.ok {
      if Usable(c, creds[c]) { PutOneFiles(lib, key, provider, creds, ios, c, start.data, p); }
      HeldNext(p.data, q.data, provider, creds, order, c);
    }
  }

  lemma {:induction false} PutAllMeaning(lib: Library, key: Bytes, provider: string, creds: map<string, string>,
                                         ios: string -> FlushIo, order: seq<string>, start: Progress)
    requires start.ok && AllFrom(order, creds)
    ensures PutsOk(lib, key, provider, creds, order, start,
                   PutAll(lib, key, provider, creds, ios, order, start))
  {
    if order != [] {
      var init, c := order[..|order| - 1], order[|order| - 1];
      PutAllMeaning(lib, key, provider, creds, ios, init, start);
      assert order == init + [c];
      PutOneOk(lib, key, provider, creds, ios, init, c, start, PutAll(lib, key, provider, creds, ios, init, start));
    }
  }

  /** The first flush that fails is the last one made. */
  lemma {:induction false} FirstFailureStops(lib: Library, key: Bytes, provider: string, creds: map<string, string>,
                                             ios: string -> FlushIo, done: seq<string>, left: seq<string>,
                                             start: Progress)
    requires AllFrom(done, creds) && AllFrom(left, creds) && AllFrom(done + left, creds)
    requires !PutAll(lib, key, provider, creds, ios, done, start).ok
    ensures PutAll(lib, key, provider, creds, ios, done + left, start) ==
            PutAll(lib, key, provider, creds, ios, done, start)
    decreases |left|
  {
    if left == [] {
      assert done + left == done;
    } else {
      var init, c := left[..|left| - 1], left[|left| - 1];
      assert done + left == done + init + [c] && c in left;
      assert forall d | d in done + init :: d in done + left;
      FirstFailureStops(lib, key, provider, creds, ios, done, init, start);
      PutAllNext(lib, key, provider, creds, ios, done + init, c, start);
    }
  }

  lemma AllHeldIsWritten(after: Secrets, provider: string, creds: map<string, string>, order: seq<string>)
    requires AllFrom(order, creds) && forall c | c in creds :: c in order
    requires MetAreHeld(after, provider, creds, order)
    ensures CredentialsWritten(after, provider, creds)
  {
    forall n | n in UsableNames(creds) ensures CredentialHeld(after, provider, n, creds) {
      var c :| c in creds && Usable(c, creds[c]) && TrimSpace(c) == n;
      assert c in order;
    }
  }

  // ----- reading -----

  function Credentials(data: Secrets, provider: string, names: seq<string>): map<string, string> {
    if names == [] then map[]
    else
      var out := Credentials(data, provider, names[..|names| - 1]);
      var n := TrimSpace(names[|names| - 1]);
      var k := ProviderKey(provider, n);
      if n != "" && k in data && data[k] != "" then out[n := data[k]] else out
  }

  /** n is one of the names after trimming. */
  ghost predicate Asked(names: seq<string>, n: string) {
    exists i :: 0 <= i < |names| && TrimSpace(names[i]) == n
  }

  lemma AskedPrefix(names: seq<string>, n: string)
    requires names != []
    ensures Asked(names, n) <==> Asked(names[..|names| - 1], n) || TrimSpace(names[|names| - 1]) == n
  {
    var init := names[..|names| - 1];
    assert forall i | 0 <= i < |init| :: names[i] == init[i];
  }

  /** Reading returns exactly the asked, present, non-empty credentials. */
  lemma {:induction false} CredentialsMeaning(data: Secrets, provider: string, names: seq<string>, n: string)
    ensures n in Credentials(data, provider, names) <==>
            && n != "" && Asked(names, n)
            && ProviderKey(provider, n) in data && data[ProviderKey(provider, n)] != ""
    ensures n in Credentials(data, provider, names) ==>
              Credentials(data, provider, names)[n] == data[ProviderKey(provider, n)]
  {
    if names != [] {
      CredentialsMeaning(data, provider, names[..|names| - 1], n);
      AskedPrefix(names, n);
    }
  }

  /** What a completed PutProviderCredentials leaves to read: for its provider
      an offered value under each offered name and the old value under every
      other; for any other slash-free provider exactly what was there. */
  lemma PutThenGet(before: Secrets, after: Secrets, p: string, creds: map<string, string>,
                   q: string, names: seq<string>, n: string)
    requires '/' !in p && '/' !in q
    requires CredentialsTouched(before, after, p, creds) && CredentialsWritten(after, p, creds)
    ensures q != p ==> Credentials(after, q, names) == Credentials(before, q, names)
    ensures n in UsableNames(creds) && Asked(names, n) ==>
              n in Credentials(after, p, names) && Offered(creds, n, Credentials(after, p, names)[n])
    ensures n !in UsableNames(creds) ==>
              SameAt(Credentials(before, p, names), Credentials(after, p, names), n)
  {
    if q != p {
      forall m: string ensures SameAt(before, after, ProviderKey(q, m)) {
        if !SameAt(before, after, ProviderKey(q, m)) {
          var k :| k in UsableNames(creds) && ProviderKey(q, m) == ProviderKey(p, k);
          ProviderKeyInjective(q, m, p, k);
        }
      }
      SameReading(before, after, q, names);
    }
    CredentialsMeaning(before, p, names, n);
    CredentialsMeaning(after, p, names, n);
    if n in UsableNames(creds) {
      var c :| c in creds && Usable(c, creds[c]) && TrimSpace(c) == n;
      var v := after[ProviderKey(p, n)];
      var d :| d in creds && Usable(d, creds[d]) && TrimSpace(d) == n && creds[d] == v;
      assert v != "";
    } else if !SameAt(before, after, ProviderKey(p, n)) {
      var k :| k in UsableNames(creds) && ProviderKey(p, n) == ProviderKey(p, k);
      ProviderKeyInjective(p, n, p, k);
    }
  }

  lemma {:induction false} SameReading(before: Secrets, after: Secrets, q: string, names: seq<string>)
    requires forall m: string :: SameAt(before, after, ProviderKey(q, m))
    ensures Credentials(after, q, names) == Credentials(before, q, names)
  {
    if names != [] {
      SameReading(before, after, q, names[..|names| - 1]);
      assert SameAt(before, after, ProviderKey(q, TrimSpace(names[|names| - 1])));
    }
  }
}
