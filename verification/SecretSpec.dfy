/** What the secrets store means: sealed entries, the store file, the three
    mutating operations and the effect of one flush on the data directory
    (secrets/local.go). */
module SecretSpec {
  import opened Wrappers
  import opened Strings
  import opened Base64
  import opened Crypto
  import opened Kek

  type Secrets = map<string, string>

  // ----- sealing -----

  function Encrypt(lib: Library, key: Bytes, nonce: Bytes, plain: string): string {
    Encode(STD, nonce + lib.seal(key, nonce, lib.toBytes(plain)))
  }

  function Decrypt(lib: Library, key: Bytes, enc: string): Option<string> {
    match Decode(STD, enc)
    case None => None
    case Some(raw) =>
      if |raw| < NONCE_BYTES then None
      else
        match lib.open(key, raw[..NONCE_BYTES], raw[NONCE_BYTES..])
        case None => None
        case Some(plain) => Some(lib.toString(plain))
  }

  /** An entry decrypts exactly when it is base64 of a nonce and a text that the
      cipher opens under that nonce. */
  lemma DecryptMeaning(lib: Library, key: Bytes, enc: string, plain: string)
    ensures Decrypt(lib, key, enc) == Some(plain) <==>
            exists nonce: Bytes, sealed: Bytes ::
              && |nonce| == 12 && Decode(STD, enc) == Some(nonce + sealed)
              && lib.open(key, nonce, sealed).Some? && lib.toString(lib.open(key, nonce, sealed).value) == plain
  {
    if Decrypt(lib, key, enc) == Some(plain) {
      var raw := Decode(STD, enc).value;
      assert raw == raw[..12] + raw[12..];
    }
    forall nonce: Bytes, sealed: Bytes | |nonce| == 12 && Decode(STD, enc) == Some(nonce + sealed)
      ensures Decrypt(lib, key, enc) ==
              if lib.open(key, nonce, sealed).None? then None
              else Some(lib.toString(lib.open(key, nonce, sealed).value))
    {
      assert (nonce + sealed)[..12] == nonce && (nonce + sealed)[12..] == sealed;
    }
  }

  /** What is stored for a value: base64 of the nonce followed by the text sealed
      under it. */
  lemma SealedLayout(lib: Library, key: Bytes, nonce: Bytes, plain: string)
    ensures Decode(STD, Encrypt(lib, key, nonce, plain)) == Some(nonce + lib.seal(key, nonce, lib.toBytes(plain)))
  {
    RoundTrip(STD, nonce + lib.seal(key, nonce, lib.toBytes(plain)));
  }

  lemma DecryptEncrypt(lib: Library, key: Bytes, nonce: Bytes, plain: string)
    requires lib.Lawful() && |key| == KEK_BYTES && |nonce| == NONCE_BYTES
    ensures Decrypt(lib, key, Encrypt(lib, key, nonce, plain)) == Some(plain)
  {
    var sealed := lib.seal(key, nonce, lib.toBytes(plain));
    RoundTrip(STD, nonce + sealed);
    assert (nonce + sealed)[..NONCE_BYTES] == nonce && (nonce + sealed)[NONCE_BYTES..] == sealed;
  }

  // ----- the store file -----

  /** The nonce drawn for each entry; None when the random source fails. */
  type Nonces = string -> Option<Bytes>

  ghost predicate Drawn(nonces: Nonces, data: Secrets) {
    forall k | k in data :: nonces(k).Some?
  }

  ghost predicate NonceSized(nonces: Nonces) {
    forall k: string | nonces(k).Some? :: |nonces(k).value| == NONCE_BYTES
  }

  ghost function EncryptAll(lib: Library, key: Bytes, nonces: Nonces, data: Secrets): map<string, string>
    requires Drawn(nonces, data)
  {
    map k | k in data :: Encrypt(lib, key, nonces(k).value, data[k])
  }

  ghost predicate AllDecrypt(lib: Library, key: Bytes, entries: map<string, string>) {
    forall k | k in entries :: Decrypt(lib, key, entries[k]).Some?
  }

  ghost function StoreBytes(lib: Library, key: Bytes, nonces: Nonces, data: Secrets): Bytes
    requires Drawn(nonces, data)
  {
    lib.marshal(DiskBlob(1, EncryptAll(lib, key, nonces, data)))
  }

  ghost function LoadBytes(lib: Library, key: Bytes, raw: Bytes): Option<Secrets> {
    match lib.unmarshal(raw)
    case None => None
    case Some(blob) =>
      if AllDecrypt(lib, key, blob.entries)
      then Some(map k | k in blob.entries :: Decrypt(lib, key, blob.entries[k]).value)
      else None
  }

  /** Loading undoes storing, through JSON, base64 and the cipher. */
  lemma LoadStore(lib: Library, key: Bytes, nonces: Nonces, data: Secrets)
    requires lib.Lawful() && |key| == KEK_BYTES && NonceSized(nonces) && Drawn(nonces, data)
    ensures LoadBytes(lib, key, StoreBytes(lib, key, nonces, data)) == Some(data)
  {
    var entries := EncryptAll(lib, key, nonces, data);
    forall k | k in data ensures Decrypt(lib, key, entries[k]) == Some(data[k]) {
      DecryptEncrypt(lib, key, nonces(k).value, data[k]);
    }
    assert (map k | k in entries :: Decrypt(lib, key, entries[k]).value) == data;
  }

  /** The store file: a document of version 1 with one sealed entry for each key
      of the cache and nothing else. */
  lemma StoreLayout(lib: Library, key: Bytes, nonces: Nonces, data: Secrets)
    requires lib.Lawful() && Drawn(nonces, data)
    ensures var blob := lib.unmarshal(StoreBytes(lib, key, nonces, data));
            && blob.Some? && blob.value.version == 1 && blob.value.entries.Keys == data.Keys
            && forall k | k in data ::
                 k in blob.value.entries
                 && Decode(STD, blob.value.entries[k]) ==
                    Some(nonces(k).value + lib.seal(key, nonces(k).value, lib.toBytes(data[k])))
  {
    forall k | k in data
      ensures Decode(STD, Encrypt(lib, key, nonces(k).value, data[k])) ==
              Some(nonces(k).value + lib.seal(key, nonces(k).value, lib.toBytes(data[k])))
    {
      SealedLayout(lib, key, nonces(k).value, data[k]);
    }
  }

  /** A file loads exactly when it parses and every one of its entries decrypts,
      and then as the map of all their texts. */
  lemma LoadMeaning(lib: Library, key: Bytes, raw: Bytes, data: Secrets)
    ensures LoadBytes(lib, key, raw) == Some(data) <==>
            && lib.unmarshal(raw).Some?
            && var entries := lib.unmarshal(raw).value.entries;
               && data.Keys == entries.Keys
               && forall k | k in entries :: Decrypt(lib, key, entries[k]) == Some(data[k])
  {
    if lib.unmarshal(raw).Some? {
      var entries := lib.unmarshal(raw).value.entries;
      if data.Keys == entries.Keys && forall k | k in entries :: Decrypt(lib, key, entries[k]) == Some(data[k]) {
        assert (map k | k in entries :: Decrypt(lib, key, entries[k]).value) == data;
      }
    }
  }

  // ----- operations on the cache -----

  datatype Op = Put(key: string, value: string) | Delete(key: string) | DeletePrefix(prefix: string)

  predicate Accepted(op: Op) {
    op.Put? ==> TrimSpace(op.key) != "" && op.value != ""
  }

  function Apply(op: Op, data: Secrets): Secrets {
    match op
    case Put(k, v) => data[TrimSpace(k) := v]
    case Delete(k) => data - {k}
    case DeletePrefix(p) => map k | k in data && !(p <= k) :: data[k]
  }

  datatype GetError = EmptyKey | NotFound(key: string)

  /** Get: the value under the trimmed name. */
  function Lookup(data: Secrets, name: string): Result<string, GetError> {
    var k := TrimSpace(name);
    if k == "" then Err(EmptyKey) else if k in data then Ok(data[k]) else Err(NotFound(k))
  }

  /** Only a Put can be refused: for a blank key or an empty value. */
  lemma AcceptedMeaning(op: Op)
    ensures Accepted(op) <==> (op.Put? ==> !AllSpace(op.key) && op.value != "")
  {
    if op.Put? { BlankIff(op.key); }
  }

  /** Each key of the cache after an operation, trimmed or not. */
  lemma ApplyMeaning(op: Op, data: Secrets, k: string)
    ensures var after := Apply(op, data);
            var dropped := (op.Delete? && k == op.key) || (op.DeletePrefix? && op.prefix <= k);
            if op.Put? && k == TrimSpace(op.key) then k in after && after[k] == op.value
            else (k in after <==> k in data && !dropped) && (k in after ==> after[k] == data[k])
  {}

  /** The names an operation is about, whatever white space surrounds them. */
  predicate Hits(op: Op, name: string) {
    match op
    case Put(k, _) => TrimSpace(k) == TrimSpace(name)
    case Delete(k) => k == TrimSpace(name)
    case DeletePrefix(p) => p <= TrimSpace(name)
  }

  /** What Get reads after an accepted operation: under the names it is about,
      the value put or nothing; under all others what it read before. */
  lemma LookupAfter(data: Secrets, op: Op, name: string)
    requires Accepted(op)
    ensures Lookup(data, name) == Err(EmptyKey) <==> AllSpace(name)
    ensures forall v :: Lookup(data, name) == Ok(v) <==>
              !AllSpace(name) && TrimSpace(name) in data && data[TrimSpace(name)] == v
    ensures Lookup(Apply(op, data), name) ==
            if AllSpace(name) || !Hits(op, name) then Lookup(data, name)
            else if op.Put? then Ok(op.value) else Err(NotFound(TrimSpace(name)))
  {
    BlankIff(name);
  }

  /** A secret put under a name with a trailing space outlives the Delete of it. */
  lemma PutSurvivesDelete(value: string)
    requires value != ""
    ensures var key := "token ";
            Apply(Delete(key), Apply(Put(key, value), map[])) == map["token" := value]
  {
    var _, _ := TrimParts("token ");
    TrimAbsorbs("", "token", " ");
    TrimFixedIff("token");
    assert "" + "token" + " " == "token ";
    assert map["token" := value] - {"token "} == map["token" := value];
  }

  /** Delete does not trim its key although Put does, so it takes back a Put of
      the same key exactly when that key has no white space at its ends. */
  lemma DeleteUndoesPutIff(data: Secrets, key: string, value: string)
    requires Accepted(Put(key, value)) && TrimSpace(key) !in data && key !in data
    ensures Apply(Delete(key), Apply(Put(key, value), data)) == data <==> Trimmed(key)
  {
    TrimFixedIff(key);
    assert TrimSpace(key) in data[TrimSpace(key) := value];
    if TrimSpace(key) == key {
      assert data[key := value] - {key} == data;
    } else {
      assert TrimSpace(key) in data[TrimSpace(key) := value] - {key};
    }
  }

  // ----- files -----

  datatype Files = Files(kek: Entry, tmp: Option<Bytes>, store: Option<Bytes>)

  /** os.WriteFile is not atomic: it may fail to open, or stop part-way. */
  datatype WriteIo = CannotOpen | Stops(kept: nat) | Completes

  function Written(before: Option<Bytes>, raw: Bytes, io: WriteIo): Option<Bytes> {
    match io
    case CannotOpen => before
    case Stops(kept) => Some(if kept <= |raw| then raw[..kept] else raw)
    case Completes => Some(raw)
  }

  /** The outcomes of the system calls in one flush. */
  datatype FlushIo = FlushIo(nonces: Nonces, write: WriteIo, renames: bool)

  ghost predicate FlushSucceeds(data: Secrets, io: FlushIo) {
    Drawn(io.nonces, data) && io.write.Completes? && io.renames
  }

  ghost function FlushFiles(lib: Library, key: Bytes, data: Secrets, files: Files, io: FlushIo): Files {
    if !Drawn(io.nonces, data) then files
    else
      var raw := StoreBytes(lib, key, io.nonces, data);
      if io.write.Completes? && io.renames then files.(tmp := None, store := Some(raw))
      else files.(tmp := Written(files.tmp, raw, io.write))
  }

  // ----- opening -----

  /** The outcomes of the system calls in one OpenLocal. */
  datatype OpenIo = OpenIo(mkdirFails: bool, kekReadFails: bool, random: Option<Bytes>, write: WriteIo,
                           storeReadFails: bool)

  datatype Opened = Opened(key: Bytes, data: Secrets)

  ghost predicate IoSized(io: OpenIo) {
    io.random.Some? ==> |io.random.value| == KEK_BYTES
  }

  /** loadOrCreateKEK: the key, or None for an error, and the key file after it. */
  ghost function OpenKey(lib: Library, env: string, kek: Entry, io: OpenIo): (Option<Bytes>, Entry) {
    match ChooseKey(lib, env, kek, io.kekReadFails)
    case UseEnv(parsed) => (parsed, kek)
    case UseFile(key) => (Some(key), kek)
    case Generate =>
      if io.random.None? || kek.Directory? then (None, kek)
      else
        match io.write
        case CannotOpen => (None, kek)
        case Stops(kept) => (None, File(Written(None, io.random.value, io.write).value))
        case Completes => (io.random, File(io.random.value))
  }

  ghost function OpenResult(lib: Library, env: string, files: Files, io: OpenIo): (Option<Opened>, Files) {
    var (key, kek) := if io.mkdirFails then (None, files.kek) else OpenKey(lib, env, files.kek, io);
    var after := files.(kek := kek);
    if key.None? then (None, after)
    else if io.storeReadFails then (None, after)
    else if files.store.None? then (Some(Opened(key.value, map[])), after)
    else
      match LoadBytes(lib, key.value, files.store.value)
      case None => (None, after)
      case Some(data) => (Some(Opened(key.value, data)), after)
  }

  /** A flush that succeeds leaves a file that loads as the cache, and no
      temporary one; any other leaves the store file as it was, and at most the
      beginning of a new one beside it. The key file is never touched. */
  lemma FlushMeaning(lib: Library, key: Bytes, data: Secrets, files: Files, io: FlushIo)
    requires lib.Lawful() && |key| == KEK_BYTES && NonceSized(io.nonces)
    ensures var after := FlushFiles(lib, key, data, files, io);
            var drawn := forall k | k in data :: io.nonces(k).Some?;
            && after.kek == files.kek
            && (FlushSucceeds(data, io) <==> drawn && io.write.Completes? && io.renames)
            && (FlushSucceeds(data, io) ==>
                  after.tmp == None && after.store.Some? && LoadBytes(lib, key, after.store.value) == Some(data))
            && (!FlushSucceeds(data, io) ==> after.store == files.store)
            && (!drawn || io.write.CannotOpen? ==> after == files)
            && (drawn && !io.write.CannotOpen? && !FlushSucceeds(data, io) ==>
                  var raw := StoreBytes(lib, key, io.nonces, data);
                  && after.tmp.Some? && after.tmp.value <= raw
                  && (io.write.Completes? ==> after.tmp.value == raw))
  {
    if FlushSucceeds(data, io) {
      LoadStore(lib, key, io.nonces, data);
    }
  }

  /** loadOrCreateKEK in every case: a key from the environment leaves the file
      alone; else the first 32 bytes of a file that can be read and has them; else
      new random bytes, which are the key only when all of them are written. */
  ghost predicate KeyOutcome(lib: Library, env: string, kek: Entry, io: OpenIo, key: Option<Bytes>, after: Entry) {
    if !AllSpace(env) then key == ParseEnvKek(lib, env) && key.Some? && after == kek
    else if kek.File? && !io.kekReadFails && |kek.content| >= 32 then
      key.Some? && |key.value| == 32 && key.value <= kek.content && after == kek
    else if io.random.None? || kek.Directory? || io.write.CannotOpen? then key == None && after == kek
    else if io.write.Completes? then key == io.random && after == File(io.random.value)
    else key == None && after.File? && after.content <= io.random.value
  }

  lemma OpenKeyMeaning(lib: Library, env: string, kek: Entry, io: OpenIo)
    ensures KeyOutcome(lib, env, kek, io, OpenKey(lib, env, kek, io).0, OpenKey(lib, env, kek, io).1)
  {
    BlankIff(env);
    TrimFixedIff(env);
  }

  /** Opening succeeds exactly when the directory is made, a key is found, and
      the store file is missing or can be read and loads under that key. It never
      touches the store file. */
  lemma OpenMeaning(lib: Library, env: string, files: Files, io: OpenIo, key: Bytes, data: Secrets)
    ensures var (result, after) := OpenResult(lib, env, files, io);
            && after.store == files.store && after.tmp == files.tmp
            && (result == Some(Opened(key, data)) <==>
                  && !io.mkdirFails && !io.storeReadFails && OpenKey(lib, env, files.kek, io).0 == Some(key)
                  && match files.store
                     case None => data == map[]
                     case Some(raw) => LoadBytes(lib, key, raw) == Some(data))
  {}

  /** The file does not parse, or one of its entries does not decrypt. */
  ghost predicate Unreadable(lib: Library, key: Bytes, raw: Bytes) {
    var blob := lib.unmarshal(raw);
    blob.Some? ==> exists k | k in blob.value.entries :: Decrypt(lib, key, blob.value.entries[k]).None?
  }

  /** Such a store is not opened, as an empty one or otherwise: the secrets stay
      in their file. */
  lemma UnreadableStoreRefused(lib: Library, env: string, files: Files, io: OpenIo)
    requires files.store.Some?
    requires var key := OpenKey(lib, env, files.kek, io).0;
             key.Some? ==> Unreadable(lib, key.value, files.store.value)
    ensures OpenResult(lib, env, files, io).0.None? && OpenResult(lib, env, files, io).1.store == files.store
  {
    var result := OpenResult(lib, env, files, io).0;
    OpenMeaning(lib, env, files, io, [], map[]);
    if result.Some? {
      OpenMeaning(lib, env, files, io, result.value.key, result.value.data);
      LoadMeaning(lib, result.value.key, files.store.value, result.value.data);
    }
  }
}
