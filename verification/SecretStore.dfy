/** LocalEncrypted: the plaintext cache and the data directory it is flushed
    to, updated in place (secrets/local.go). The outcomes of system calls and
    the nonces come in as parameters. */
module SecretStore {
  import opened Wrappers
  import opened Strings
  import opened Base64
  import opened Crypto
  import opened Kek
  import opened SecretSpec
  import opened Providers

  /** The three files of the data directory. */
  class DataDir {
    var kek: Entry
    var tmp: Option<Bytes>
    var store: Option<Bytes>

    ghost function Contents(): Files
      reads this
    {
      Files(kek, tmp, store)
    }

    constructor (files: Files)
      ensures Contents() == files
    {
      kek, tmp, store := files.kek, files.tmp, files.store;
    }
  }

  /** loadOrCreateKEK. */
  method LoadOrCreateKek(lib: Library, dir: DataDir, env: string, io: OpenIo) returns (key: Option<Bytes>)
    modifies dir`kek
    ensures (key, dir.kek) == OpenKey(lib, env, old(dir.kek), io)
    ensures KeyOutcome(lib, env, old(dir.kek), io, key, dir.kek)
  {
    OpenKeyMeaning(lib, env, dir.kek, io);
    var v := TrimSpace(env);
    if v != "" {
      return ParseEnvKek(lib, v);
    }
    if dir.kek.File? && !io.kekReadFails && |dir.kek.content| >= KEK_BYTES {
      return Some(dir.kek.content[..KEK_BYTES]);
    }
    if io.random.None? {
      return None;
    }
    var b := io.random.value;
    if dir.kek.Directory? || io.write.CannotOpen? {
      return None;
    }
    dir.kek := File(Written(None, b, io.write).value);
    return if io.write.Completes? then Some(b) else None;
  }

  class LocalEncrypted {
    const lib: Library
    const dir: DataDir
    const key: Bytes
    var data: Secrets

    constructor (lib: Library, dir: DataDir, key: Bytes, data: Secrets)
      ensures this.lib == lib && this.dir == dir && this.key == key && this.data == data
    {
      this.lib, this.dir, this.key, this.data := lib, dir, key, data;
    }

    /** loadLocked's loop over the entries of the parsed file. */
    static method DecryptEntries(lib: Library, key: Bytes, entries: map<string, string>)
      returns (out: Option<Secrets>)
      ensures out.Some? <==> AllDecrypt(lib, key, entries)
      ensures out.Some? ==> out.value == map k | k in entries :: Decrypt(lib, key, entries[k]).value
    {
      var plain: Secrets := map[];
      var rest := entries.Keys;
      while rest != {}
        invariant rest <= entries.Keys
        invariant forall k | k in entries.Keys - rest :: Decrypt(lib, key, entries[k]).Some?
        invariant plain == map k | k in entries.Keys - rest :: Decrypt(lib, key, entries[k]).value
        decreases rest
      {
        var k :| k in rest;
        var pt := Decrypt(lib, key, entries[k]);
        if pt.None? {
          return None;
        }
        plain := plain[k := pt.value];
        rest := rest - {k};
      }
      return Some(plain);
    }

    /** OpenLocal; null stands for an error. */
    static method OpenLocal(lib: Library, dir: DataDir, env: string, io: OpenIo) returns (s: LocalEncrypted?)
      modifies dir`kek
      ensures dir.Contents() == OpenResult(lib, env, old(dir.Contents()), io).1
      ensures var result := OpenResult(lib, env, old(dir.Contents()), io).0;
              if s == null then result.None?
              else && fresh(s) && s.lib == lib && s.dir == dir
                   && result == Some(Opened(s.key, s.data))
    {
      if io.mkdirFails {
        return null;
      }
      var key := LoadOrCreateKek(lib, dir, env, io);
      if key.None? || io.storeReadFails {
        return null;
      }
      if dir.store.None? {
        s := new LocalEncrypted(lib, dir, key.value, map[]);
        return;
      }
      var blob := lib.unmarshal(dir.store.value);
      if blob.None? {
        return null;
      }
      var plain := DecryptEntries(lib, key.value, blob.value.entries);
      if plain.None? {
        return null;
      }
      s := new LocalEncrypted(lib, dir, key.value, plain.value);
    }

    /** flushLocked: seal every entry, write the temporary file, rename it. */
    method FlushLocked(io: FlushIo) returns (ok: bool)
      modifies dir`tmp, dir`store
      ensures ok <==> (forall k | k in data :: io.nonces(k).Some?) && io.write.Completes? && io.renames
      ensures ok <==> FlushSucceeds(data, io)
      ensures dir.Contents() == FlushFiles(lib, key, data, old(dir.Contents()), io)
    {
      var entries: map<string, string> := map[];
      var rest := data.Keys;
      while rest != {}
        invariant rest <= data.Keys
        invariant forall k | k in data.Keys - rest :: io.nonces(k).Some?
        invariant entries == map k | k in data.Keys - rest :: Encrypt(lib, key, io.nonces(k).value, data[k])
        decreases rest
      {
        var k :| k in rest;
        var nonce := io.nonces(k);
        if nonce.None? {
          return false;
        }
        entries := entries[k := Encrypt(lib, key, nonce.value, data[k])];
        rest := rest - {k};
      }
      assert Drawn(io.nonces, data);
      assert entries == EncryptAll(lib, key, io.nonces, data);
      var raw := lib.marshal(DiskBlob(1, entries));
      dir.tmp := Written(dir.tmp, raw, io.write);
      if !io.write.Completes? || !io.renames {
        return false;
      }
      dir.tmp, dir.store := None, dir.tmp;
      return true;
    }

    method Get(name: string) returns (r: Result<string, GetError>)
      ensures r == Lookup(data, name)
    {
      var k := TrimSpace(name);
      if k == "" {
        return Err(EmptyKey);
      }
      return if k in data then Ok(data[k]) else Err(NotFound(k));
    }

    /** A refused Put touches nothing; an accepted one changes the cache even
        when the flush that follows fails. */
    method Put(name: string, value: string, io: FlushIo) returns (ok: bool)
      modifies this`data, dir`tmp, dir`store
      ensures var op := SecretSpec.Put(name, value);
              if !AllSpace(name) && value != "" then
                && data == Apply(op, old(data))
                && dir.Contents() == FlushFiles(lib, key, data, old(dir.Contents()), io)
                && (ok <==> FlushSucceeds(data, io))
              else !ok && data == old(data) && dir.Contents() == old(dir.Contents())
    {
      AcceptedMeaning(SecretSpec.Put(name, value));
      var k := TrimSpace(name);
      if k == "" || value == "" {
        return false;
      }
      data := data[k := value];
      ok := FlushLocked(io);
    }

    method Delete(name: string, io: FlushIo) returns (ok: bool)
      modifies this`data, dir`tmp, dir`store
      ensures data == Apply(SecretSpec.Delete(name), old(data))
      ensures dir.Contents() == FlushFiles(lib, key, data, old(dir.Contents()), io)
      ensures ok <==> FlushSucceeds(data, io)
    {
      data := data - {name};
      ok := FlushLocked(io);
    }

    method DeletePrefix(prefix: string, io: FlushIo) returns (ok: bool)
      modifies this`data, dir`tmp, dir`store
      ensures data == Apply(SecretSpec.DeletePrefix(prefix), old(data))
      ensures dir.Contents() == FlushFiles(lib, key, data, old(dir.Contents()), io)
      ensures ok <==> FlushSucceeds(data, io)
    {
      var rest := data.Keys;
      while rest != {}
        invariant rest <= old(data).Keys && dir.Contents() == old(dir.Contents())
        invariant data == map k | k in old(data) && (k in rest || !(prefix <= k)) :: old(data)[k]
        decreases rest
      {
        var k :| k in rest;
        if prefix <= k {
          data := data - {k};
        }
        rest := rest - {k};
      }
      ok := FlushLocked(io);
    }

    /** The cache and the files, as far as a loop of puts has got. */
    ghost function Reached(ok: bool): Progress
      reads this, dir
    {
      Progress(ok, data, dir.Contents())
    }

    /** One Put for each usable credential, in the order in which the map yields
        them; stops at the first failure. ios gives the outcome of each flush. */
    method PutProviderCredentials(provider: string, creds: map<string, string>, ios: string -> FlushIo)
      returns (ok: bool, ghost order: seq<string>)
      modifies this`data, dir`tmp, dir`store
      ensures exists rest :: Visited(order, creds, rest) && (ok ==> rest == {})
      ensures Reached(ok) == PutAll(lib, key, provider, creds, ios, order, old(Reached(true)))
      ensures PutsOk(lib, key, provider, creds, order, old(Reached(true)), Reached(ok))
      ensures ok ==> forall c | c in creds && !AllSpace(c) && !AllSpace(creds[c]) ::
                       CredentialHeld(data, provider, TrimSpace(c), creds)
      ensures ok ==> CredentialsWritten(data, provider, creds)
    {
      var rest := creds.Keys;
      order := [];
      while rest != {}
        invariant Visited(order, creds, rest)
        invariant Reached(true) == PutAll(lib, key, provider, creds, ios, order, old(Reached(true)))
        decreases rest
      {
        var c :| c in rest;
        VisitNext(order, creds, rest, c);
        PutAllNext(lib, key, provider, creds, ios, order, c, old(Reached(true)));
        rest, order := rest - {c}, order + [c];
        var name := TrimSpace(c);
        if name == "" || TrimSpace(creds[c]) == "" {
          continue;
        }
        ProviderKeyTrimmed(provider, c);
        var stored := Put(ProviderKey(provider, name), creds[c], ios(c));
        if !stored {
          PutAllMeaning(lib, key, provider, creds, ios, order, old(Reached(true)));
          return false, order;
        }
      }
      ok := true;
      PutAllMeaning(lib, key, provider, creds, ios, order, old(Reached(true)));
      AllHeldIsWritten(data, provider, creds, order);
      forall c | c in creds ensures Usable(c, creds[c]) <==> !AllSpace(c) && !AllSpace(creds[c]) {
        UsableMeaning(c, creds[c]);
      }
    }

    /** The listed credentials that are present and not empty, by trimmed name. */
    method GetProviderCredentials(provider: string, names: seq<string>) returns (out: map<string, string>)
      ensures out == Credentials(data, provider, names)
    {
      out := map[];
      for i := 0 to |names|
        invariant out == Credentials(data, provider, names[..i])
      {
        assert names[..i + 1][..i] == names[..i];
        var k := TrimSpace(names[i]);
        if k == "" {
          continue;
        }
        ProviderKeyTrimmed(provider, names[i]);
        var r := Get(ProviderKey(provider, k));
        if r.Ok? && r.value != "" {
          out := out[k := r.value];
        }
      }
      assert names[..|names|] == names;
    }
  }
}
