/** Every run of the secrets store over one data directory: opening, the
    mutating operations, failed system calls and crashes between any two of
    them, also half-way through a file being written. A run is a sequence of
    choices; a choice that is not possible in a state leaves it as it is. */
module SecretRuns {
  import opened Wrappers
  import opened Strings
  import opened Base64
  import opened Crypto
  import opened Kek
  import opened SecretSpec

  datatype Proc =
    | Down
    | MakingKek(random: Bytes)
    | Loading(key: Bytes)
    | Idle(key: Bytes, data: Secrets)
    | Flushing(key: Bytes, data: Secrets)
    | WritingTmp(key: Bytes, data: Secrets, raw: Bytes)
    | Renaming(key: Bytes, data: Secrets)
    | Acking(key: Bytes, data: Secrets)

  /** issued lists every operation that reached the cache; durable and cached
      are the positions in it whose effects the store file and the cache hold;
      acked are those whose call returned without an error. */
  datatype State = State(files: Files, proc: Proc, issued: seq<Op>,
                         durable: seq<nat>, cached: seq<nat>, acked: set<nat>)

  datatype Choice =
    | Boot(random: Bytes, readFails: bool)
    | WriteKek(upTo: nat)
    | KekWritten
    | Load
    | Issue(op: Op)
    | SealAndOpenTmp(nonces: Nonces)
    | WriteTmp(upTo: nat)
    | TmpWritten
    | Rename
    | Acknowledge
    | Fail
    | Crash

  function Stop(s: State): State {
    s.(proc := Down, cached := s.durable)
  }

  /** OpenLocal up to the point where it has a key. */
  function OpenStep(lib: Library, env: string, s: State, c: Choice): State {
    match c
    case Boot(random, readFails) =>
      if !s.proc.Down? then s
      else
        (match ChooseKey(lib, env, s.files.kek, readFails)
         case UseEnv(parsed) => if parsed.Some? then s.(proc := Loading(parsed.value)) else s
         case UseFile(key) => s.(proc := Loading(key))
         case Generate =>
           if s.files.kek.Directory? || |random| != KEK_BYTES then s
           else s.(proc := MakingKek(random), files := s.files.(kek := File([]))))
    case WriteKek(upTo) =>
      if s.proc.MakingKek? && s.files.kek.File? && |s.files.kek.content| <= upTo <= |s.proc.random|
      then s.(files := s.files.(kek := File(s.proc.random[..upTo]))) else s
    case KekWritten =>
      if s.proc.MakingKek? && s.files.kek == File(s.proc.random)
      then s.(proc := Loading(s.proc.random)) else s
    case _ => s
  }

  ghost function LoadStep(lib: Library, s: State): State {
    if !s.proc.Loading? then s
    else if s.files.store.None? then s.(proc := Idle(s.proc.key, map[]))
    else
      match LoadBytes(lib, s.proc.key, s.files.store.value)
      case None => Stop(s)
      case Some(data) => s.(proc := Idle(s.proc.key, data))
  }

  function IssueStep(s: State, op: Op): State {
    if !s.proc.Idle? || !Accepted(op) then s
    else s.(proc := Flushing(s.proc.key, Apply(op, s.proc.data)),
            issued := s.issued + [op], cached := s.cached + [|s.issued|])
  }

  ghost function FlushStep(lib: Library, s: State, c: Choice): State {
    match c
    case SealAndOpenTmp(nonces) =>
      if s.proc.Flushing? && Drawn(nonces, s.proc.data) && NonceSized(nonces)
      then s.(proc := WritingTmp(s.proc.key, s.proc.data, StoreBytes(lib, s.proc.key, nonces, s.proc.data)),
              files := s.files.(tmp := Some([])))
      else s
    case WriteTmp(upTo) =>
      if s.proc.WritingTmp? && s.files.tmp.Some? && |s.files.tmp.value| <= upTo <= |s.proc.raw|
      then s.(files := s.files.(tmp := Some(s.proc.raw[..upTo]))) else s
    case TmpWritten =>
      if s.proc.WritingTmp? && s.files.tmp == Some(s.proc.raw)
      then s.(proc := Renaming(s.proc.key, s.proc.data)) else s
    case Rename =>
      if s.proc.Renaming?
      then s.(proc := Acking(s.proc.key, s.proc.data),
              files := s.files.(tmp := None, store := s.files.tmp), durable := s.cached)
      else s
    case Acknowledge =>
      if s.proc.Acking? && s.cached != []
      then s.(proc := Idle(s.proc.key, s.proc.data), acked := s.acked + {s.cached[|s.cached| - 1]})
      else s
    case _ => s
  }

  /** An error return: an opening gives up, a flush leaves the changed cache. */
  function FailStep(s: State): State {
    if s.proc.MakingKek? || s.proc.Loading? then Stop(s)
    else if s.proc.Flushing? || s.proc.WritingTmp? || s.proc.Renaming? then s.(proc := Idle(s.proc.key, s.proc.data))
    else s
  }

  ghost function Do(lib: Library, env: string, s: State, c: Choice): State {
    match c
    case Boot(_, _) => OpenStep(lib, env, s, c)
    case WriteKek(_) => OpenStep(lib, env, s, c)
    case KekWritten => OpenStep(lib, env, s, c)
    case Load => LoadStep(lib, s)
    case Issue(op) => IssueStep(s, op)
    case Fail => FailStep(s)
    case Crash => Stop(s)
    case _ => FlushStep(lib, s, c)
  }

  /** A directory without a store file; anything may stand in the other places. */
  function Start(kek: Entry, tmp: Option<Bytes>): State {
    State(Files(kek, tmp, None), Down, [], [], [], {})
  }

  ghost function Run(lib: Library, env: string, start: State, choices: seq<Choice>): State
    decreases |choices|
  {
    if choices == [] then start
    else Run(lib, env, Do(lib, env, start, choices[0]), choices[1..])
  }

  // ----- what the history means -----

  ghost predicate Within(issued: seq<Op>, ids: seq<nat>) {
    forall i | 0 <= i < |ids| :: ids[i] < |issued|
  }

  ghost function Replay(issued: seq<Op>, ids: seq<nat>): Secrets
    requires Within(issued, ids)
  {
    if ids == [] then map[]
    else Apply(issued[ids[|ids| - 1]], Replay(issued, ids[..|ids| - 1]))
  }

  ghost predicate InOrder(issued: seq<Op>, ids: seq<nat>) {
    && Within(issued, ids)
    && (forall i, j | 0 <= i < j < |ids| :: ids[i] < ids[j])
  }

  lemma {:induction false} ReplayExtended(issued: seq<Op>, op: Op, ids: seq<nat>)
    requires Within(issued, ids)
    ensures Replay(issued + [op], ids) == Replay(issued, ids)
  {
    if ids != [] {
      ReplayExtended(issued, op, ids[..|ids| - 1]);
    }
  }

  /** The key a restart would find without making a new one. */
  function KeyAtHand(lib: Library, env: string, kek: Entry): Option<Bytes> {
    match ChooseKey(lib, env, kek, false)
    case UseEnv(parsed) => parsed
    case UseFile(key) => Some(key)
    case Generate => None
  }

  /** An opening that fails to read the sound key file of a store: it takes the
      file for missing and makes a new key in its place. */
  predicate LosesKey(lib: Library, env: string, s: State, c: Choice) {
    && c.Boot? && c.readFails && |c.random| == KEK_BYTES && s.proc.Down? && s.files.store.Some?
    && ChooseKey(lib, env, s.files.kek, false).UseFile?
  }

  /** No opening of the run does that. */
  ghost predicate Safe(lib: Library, env: string, s: State, choices: seq<Choice>)
    decreases |choices|
  {
    choices == [] || (!LosesKey(lib, env, s, choices[0]) && Safe(lib, env, Do(lib, env, s, choices[0]), choices[1..]))
  }

  // ----- the invariant -----

  ghost predicate HistoryOk(s: State) {
    && InOrder(s.issued, s.cached)
    && s.durable <= s.cached
    && (forall i | i in s.acked :: i in s.durable)
    && (s.proc.Down? || s.proc.MakingKek? || s.proc.Loading? || s.proc.Acking? ==> s.durable == s.cached)
    && (s.proc.Flushing? || s.proc.WritingTmp? || s.proc.Renaming? || s.proc.Acking? ==> s.cached != [])
  }

  ghost predicate StoreOk(lib: Library, env: string, s: State)
    requires HistoryOk(s)
  {
    match s.files.store
    case None => s.durable == []
    case Some(raw) =>
      var key := KeyAtHand(lib, env, s.files.kek);
      && key.Some? && |key.value| == KEK_BYTES
      && LoadBytes(lib, key.value, raw) == Some(Replay(s.issued, s.durable))
  }

  ghost predicate ProcOk(lib: Library, env: string, s: State)
    requires HistoryOk(s)
  {
    match s.proc
    case Down => true
    case MakingKek(random) =>
      && |random| == KEK_BYTES && s.files.store.None? && s.files.kek.File? && s.files.kek.content <= random
      && !ChooseKey(lib, env, s.files.kek, false).UseEnv?
    case Loading(key) => KeyAtHand(lib, env, s.files.kek) == Some(key) && |key| == KEK_BYTES
    case Idle(key, data) => CacheOk(lib, env, s, key, data)
    case Flushing(key, data) => CacheOk(lib, env, s, key, data)
    case WritingTmp(key, data, raw) =>
      && CacheOk(lib, env, s, key, data) && LoadBytes(lib, key, raw) == Some(data)
      && s.files.tmp.Some? && s.files.tmp.value <= raw
    case Renaming(key, data) =>
      && CacheOk(lib, env, s, key, data)
      && s.files.tmp.Some? && LoadBytes(lib, key, s.files.tmp.value) == Some(data)
    case Acking(key, data) => CacheOk(lib, env, s, key, data)
  }

  ghost predicate CacheOk(lib: Library, env: string, s: State, key: Bytes, data: Secrets)
    requires HistoryOk(s)
  {
    && KeyAtHand(lib, env, s.files.kek) == Some(key) && |key| == KEK_BYTES
    && data == Replay(s.issued, s.cached)
  }

  ghost predicate Inv(lib: Library, env: string, s: State) {
    HistoryOk(s) && StoreOk(lib, env, s) && ProcOk(lib, env, s)
  }

  lemma KeySized(lib: Library, env: string, kek: Entry)
    requires lib.Lawful() && KeyAtHand(lib, env, kek).Some?
    ensures |KeyAtHand(lib, env, kek).value| == KEK_BYTES
  {}

  lemma OpenKeepsInv(lib: Library, env: string, s: State, c: Choice)
    requires lib.Lawful() && Inv(lib, env, s) && !LosesKey(lib, env, s, c)
    ensures Inv(lib, env, OpenStep(lib, env, s, c))
  {
    var t := OpenStep(lib, env, s, c);
    if t.proc.Loading? {
      if s.proc.MakingKek? { assert s.proc.random[..KEK_BYTES] == s.proc.random; }
      assert KeyAtHand(lib, env, t.files.kek) == Some(t.proc.key);
      KeySized(lib, env, t.files.kek);
    }
  }

  lemma IssueKeepsHistory(s: State, op: Op)
    requires HistoryOk(s) && s.proc.Idle? && Accepted(op)
    ensures HistoryOk(IssueStep(s, op))
  {
    var t := IssueStep(s, op);
    assert forall i | 0 <= i < |s.cached| :: t.cached[i] == s.cached[i];
  }

  /** A new operation is the last to be replayed onto the cache, and the store
      file has none of it yet. */
  lemma IssueReplays(issued: seq<Op>, op: Op, cached: seq<nat>, durable: seq<nat>)
    requires Within(issued, cached) && Within(issued, durable)
    ensures Within(issued + [op], cached + [|issued|]) && Within(issued + [op], durable)
    ensures Replay(issued + [op], cached + [|issued|]) == Apply(op, Replay(issued, cached))
    ensures Replay(issued + [op], durable) == Replay(issued, durable)
  {
    ReplayExtended(issued, op, cached);
    ReplayExtended(issued, op, durable);
    assert (cached + [|issued|])[..|cached|] == cached;
  }

  lemma IssueKeepsInv(lib: Library, env: string, s: State, op: Op)
    requires Inv(lib, env, s)
    ensures Inv(lib, env, IssueStep(s, op))
  {
    if s.proc.Idle? && Accepted(op) {
      IssueKeepsHistory(s, op);
      assert forall i | 0 <= i < |s.durable| :: s.durable[i] == s.cached[i];
      IssueReplays(s.issued, op, s.cached, s.durable);
    }
  }

  lemma SealKeepsInv(lib: Library, env: string, s: State, c: Choice)
    requires lib.Lawful() && Inv(lib, env, s) && c.SealAndOpenTmp?
    ensures Inv(lib, env, FlushStep(lib, s, c))
  {
    if s.proc.Flushing? && Drawn(c.nonces, s.proc.data) && NonceSized(c.nonces) {
      LoadStore(lib, s.proc.key, c.nonces, s.proc.data);
    }
  }

  lemma WriteKeepsInv(lib: Library, env: string, s: State, c: Choice)
    requires Inv(lib, env, s) && (c.WriteTmp? || c.TmpWritten?)
    ensures Inv(lib, env, FlushStep(lib, s, c))
  {}

  lemma RenameKeepsInv(lib: Library, env: string, s: State)
    requires Inv(lib, env, s)
    ensures Inv(lib, env, FlushStep(lib, s, Rename))
  {}

  lemma FlushKeepsInv(lib: Library, env: string, s: State, c: Choice)
    requires lib.Lawful() && Inv(lib, env, s)
    ensures Inv(lib, env, FlushStep(lib, s, c))
  {
    match c
    case SealAndOpenTmp(_) => SealKeepsInv(lib, env, s, c);
    case WriteTmp(_) => WriteKeepsInv(lib, env, s, c);
    case TmpWritten => WriteKeepsInv(lib, env, s, c);
    case Rename => RenameKeepsInv(lib, env, s);
    case _ =>
  }

  lemma LoadKeepsInv(lib: Library, env: string, s: State)
    requires Inv(lib, env, s)
    ensures Inv(lib, env, LoadStep(lib, s))
  {}

  lemma StopKeepsInv(lib: Library, env: string, s: State)
    requires Inv(lib, env, s)
    ensures Inv(lib, env, Stop(s))
  {
    assert forall i | 0 <= i < |s.durable| :: s.durable[i] == s.cached[i];
  }

  lemma FailKeepsInv(lib: Library, env: string, s: State)
    requires Inv(lib, env, s)
    ensures Inv(lib, env, FailStep(s))
  {
    if s.proc.MakingKek? || s.proc.Loading? {
      StopKeepsInv(lib, env, s);
    }
  }

  lemma DoKeepsInv(lib: Library, env: string, s: State, c: Choice)
    requires lib.Lawful() && Inv(lib, env, s) && !LosesKey(lib, env, s, c)
    ensures Inv(lib, env, Do(lib, env, s, c))
  {
    match c
    case Boot(_, _) => OpenKeepsInv(lib, env, s, c);
    case WriteKek(_) => OpenKeepsInv(lib, env, s, c);
    case KekWritten => OpenKeepsInv(lib, env, s, c);
    case Load => LoadKeepsInv(lib, env, s);
    case Issue(op) => IssueKeepsInv(lib, env, s, op);
    case Fail => FailKeepsInv(lib, env, s);
    case Crash => StopKeepsInv(lib, env, s);
    case _ => FlushKeepsInv(lib, env, s, c);
  }

  lemma {:induction false} RunKeepsInv(lib: Library, env: string, start: State, choices: seq<Choice>)
    requires lib.Lawful() && Inv(lib, env, start) && Safe(lib, env, start, choices)
    ensures Inv(lib, env, Run(lib, env, start, choices))
    decreases |choices|
  {
    if choices != [] {
      DoKeepsInv(lib, env, start, choices[0]);
      RunKeepsInv(lib, env, Do(lib, env, start, choices[0]), choices[1..]);
    }
  }

  // ----- the theorems -----

  /** Opening these files with these outcomes replaces the key of a store. */
  predicate OverwritesKey(lib: Library, env: string, files: Files, io: OpenIo) {
    io.kekReadFails && files.store.Some? && ChooseKey(lib, env, files.kek, false).UseFile?
  }

  /** No system call of the opening fails, except perhaps reading the key file. */
  ghost predicate Smooth(io: OpenIo) {
    IoSized(io) && !io.mkdirFails && io.random.Some? && io.write.Completes? && !io.storeReadFails
  }

  lemma OpenFromInv(lib: Library, env: string, s: State, io: OpenIo)
    requires lib.Lawful() && Inv(lib, env, s) && Smooth(io) && !s.files.kek.Directory?
    requires !OverwritesKey(lib, env, s.files, io)
    ensures var r := OpenResult(lib, env, s.files, io).0;
            r.Some? && r.value.data == Replay(s.issued, s.durable)
  {
    InspectPredictsIff(lib, env, s.files.kek, "", io.kekReadFails);
    if KeyAtHand(lib, env, s.files.kek).Some? { KeySized(lib, env, s.files.kek); }
  }

  /** Stop the store at any point of any run, then open it again: opening
      succeeds and loads the effects of the operations in durable, applied in
      the order issued, among them every acknowledged one. Reads of the key
      file may fail wherever no store depends on it. */
  lemma ReopenLoadsDurable(lib: Library, env: string, kek: Entry, tmp: Option<Bytes>, choices: seq<Choice>, io: OpenIo)
    requires lib.Lawful() && Safe(lib, env, Start(kek, tmp), choices) && !kek.Directory?
    requires Smooth(io) && !OverwritesKey(lib, env, Run(lib, env, Start(kek, tmp), choices).files, io)
    ensures var s := Run(lib, env, Start(kek, tmp), choices);
            && InOrder(s.issued, s.durable)
            && (forall i | i in s.acked :: i in s.durable)
            && var r := OpenResult(lib, env, s.files, io).0;
               r.Some? && r.value.data == Replay(s.issued, s.durable)
  {
    RunKeepsInv(lib, env, Start(kek, tmp), choices);
    KekNeverDirectory(lib, env, Start(kek, tmp), choices);
    var s := Run(lib, env, Start(kek, tmp), choices);
    assert forall i | 0 <= i < |s.durable| :: s.durable[i] == s.cached[i];
    OpenFromInv(lib, env, s, io);
  }

  lemma {:induction false} KekNeverDirectory(lib: Library, env: string, start: State, choices: seq<Choice>)
    requires !start.files.kek.Directory?
    ensures !Run(lib, env, start, choices).files.kek.Directory?
    decreases |choices|
  {
    if choices != [] {
      KekNeverDirectory(lib, env, Do(lib, env, start, choices[0]), choices[1..]);
    }
  }

  /** A store file comes with the key that opens all of it. */
  ghost predicate KeyKept(lib: Library, env: string, s: State) {
    s.files.store.Some? ==>
      var key := KeyAtHand(lib, env, s.files.kek);
      key.Some? && LoadBytes(lib, key.value, s.files.store.value).Some?
  }

  /** It does so at every point of the run. */
  ghost predicate KeptThroughout(lib: Library, env: string, s: State, choices: seq<Choice>)
    decreases |choices|
  {
    KeyKept(lib, env, s)
    && (choices == [] || KeptThroughout(lib, env, Do(lib, env, s, choices[0]), choices[1..]))
  }

  lemma {:induction false} KeptFromInv(lib: Library, env: string, s: State, choices: seq<Choice>)
    requires lib.Lawful() && Inv(lib, env, s)
    ensures KeptThroughout(lib, env, s, choices) <==> Safe(lib, env, s, choices)
    decreases |choices|
  {
    if choices != [] {
      var t := Do(lib, env, s, choices[0]);
      if LosesKey(lib, env, s, choices[0]) {
        assert t.files.store.Some? && t.files.kek == File([]);
        assert !KeyKept(lib, env, t);
      } else {
        DoKeepsInv(lib, env, s, choices[0]);
        KeptFromInv(lib, env, t, choices[1..]);
      }
    }
  }

  /** Along a run every store file is accompanied by the key that opens all of
      it, so that a new key is made only when nothing is stored, exactly when no
      opening of the run fails to read the sound key file of a store. */
  lemma KeyKeptIff(lib: Library, env: string, kek: Entry, tmp: Option<Bytes>, choices: seq<Choice>)
    requires lib.Lawful()
    ensures KeptThroughout(lib, env, Start(kek, tmp), choices) <==> Safe(lib, env, Start(kek, tmp), choices)
  {
    KeptFromInv(lib, env, Start(kek, tmp), choices);
  }

  /** Opening destroys a sound key file exactly when no key comes from the
      environment, reading that file fails, which is treated like a missing file,
      and the write is reached and begun: the directory made, random bytes drawn
      and the file opened. The new key may then be written whole or in part. */
  lemma SoundKeyOverwrittenIff(lib: Library, env: string, files: Files, io: OpenIo)
    requires lib.Lawful() && IoSized(io)
    requires files.kek.File? && |files.kek.content| >= KEK_BYTES && Some(files.kek.content) != io.random
    ensures OpenResult(lib, env, files, io).1.kek != files.kek
            <==> && io.kekReadFails && AllSpace(env)
                 && !io.mkdirFails && io.random.Some? && !io.write.CannotOpen?
  {
    BlankIff(env);
    if io.random.Some? {
      assert io.random.value[..KEK_BYTES] == io.random.value;
    }
  }

  // ----- the methods of LocalEncrypted are such runs -----

  function Kept(raw: Bytes, n: nat): nat {
    if n <= |raw| then n else |raw|
  }

  /** The choices one flush with given outcomes amounts to once its temporary
      file is open, and before. */
  ghost function FlushTail(raw: Bytes, io: FlushIo): seq<Choice> {
    if io.write.Stops? then [WriteTmp(Kept(raw, io.write.kept))] + [Fail]
    else if !io.renames then [WriteTmp(|raw|)] + [TmpWritten, Fail]
    else [WriteTmp(|raw|)] + [TmpWritten, Rename, Acknowledge]
  }

  ghost function FlushChoices(data: Secrets, raw: Bytes, io: FlushIo): seq<Choice> {
    if !Drawn(io.nonces, data) || io.write.CannotOpen? then [Fail]
    else [SealAndOpenTmp(io.nonces)] + FlushTail(raw, io)
  }

  lemma Run1(lib: Library, env: string, s: State, a: Choice, rest: seq<Choice>)
    ensures Run(lib, env, s, [a] + rest) == Run(lib, env, Do(lib, env, s, a), rest)
  {
    assert ([a] + rest)[1..] == rest;
  }

  /** The last part of a flush that has written the whole temporary file. */
  lemma RenameRun(lib: Library, env: string, s: State, raw: Bytes)
    requires s.proc.WritingTmp? && s.proc.raw == raw && s.files.tmp == Some(raw) && s.cached != []
    ensures var t := Run(lib, env, s, [TmpWritten, Rename, Acknowledge]);
            && t.proc == Idle(s.proc.key, s.proc.data)
            && t.files == s.files.(tmp := None, store := Some(raw))
            && t.acked == s.acked + {s.cached[|s.cached| - 1]}
  {
    var u := Do(lib, env, s, TmpWritten);
    assert [TmpWritten, Rename, Acknowledge][1..] == [Rename, Acknowledge];
    assert [Rename, Acknowledge][1..] == [Acknowledge];
    assert Do(lib, env, Do(lib, env, u, Rename), Acknowledge).proc == Idle(s.proc.key, s.proc.data);
  }

  lemma RenameFailsRun(lib: Library, env: string, s: State, raw: Bytes)
    requires s.proc.WritingTmp? && s.proc.raw == raw && s.files.tmp == Some(raw)
    ensures var t := Run(lib, env, s, [TmpWritten, Fail]);
            t.proc == Idle(s.proc.key, s.proc.data) && t.files == s.files && t.acked == s.acked
  {
    assert [TmpWritten, Fail][1..] == [Fail];
  }

  lemma StoppedRun(lib: Library, env: string, s: State, raw: Bytes, kept: nat)
    requires s.proc.WritingTmp? && s.proc.raw == raw && s.files.tmp == Some([])
    ensures var t := Run(lib, env, s, [WriteTmp(Kept(raw, kept))] + [Fail]);
            && t.proc == Idle(s.proc.key, s.proc.data) && t.acked == s.acked
            && t.files == s.files.(tmp := Written(None, raw, Stops(kept)))
  {
    var u := Do(lib, env, s, WriteTmp(Kept(raw, kept)));
    Run1(lib, env, s, WriteTmp(Kept(raw, kept)), [Fail]);
    assert raw[..|raw|] == raw;
    assert Run(lib, env, u, [Fail]) == Do(lib, env, u, Fail);
  }

  lemma FlushRun(lib: Library, env: string, s: State, data: Secrets, raw: Bytes, io: FlushIo)
    requires s.proc.WritingTmp? && s.proc.raw == raw && s.files.tmp == Some([]) && s.cached != []
    requires Drawn(io.nonces, data) && !io.write.CannotOpen?
    ensures var t := Run(lib, env, s, FlushTail(raw, io));
            && t.proc == Idle(s.proc.key, s.proc.data)
            && t.files == (if FlushSucceeds(data, io) then s.files.(tmp := None, store := Some(raw))
                           else s.files.(tmp := Written(None, raw, io.write)))
            && t.acked == (if FlushSucceeds(data, io) then s.acked + {s.cached[|s.cached| - 1]} else s.acked)
  {
    if io.write.Stops? {
      StoppedRun(lib, env, s, raw, io.write.kept);
    } else {
      assert raw[..|raw|] == raw;
      var u := Do(lib, env, s, WriteTmp(|raw|));
      if io.renames {
        RenameRun(lib, env, u, raw);
        Run1(lib, env, s, WriteTmp(|raw|), [TmpWritten, Rename, Acknowledge]);
      } else {
        RenameFailsRun(lib, env, u, raw);
        Run1(lib, env, s, WriteTmp(|raw|), [TmpWritten, Fail]);
      }
    }
  }

  /** The choices one accepted operation amounts to. */
  ghost function OperationChoices(lib: Library, key: Bytes, before: Secrets, op: Op, io: FlushIo): seq<Choice> {
    var data := Apply(op, before);
    var raw := if Drawn(io.nonces, data) then StoreBytes(lib, key, io.nonces, data) else [];
    [Issue(op)] + FlushChoices(data, raw, io)
  }

  lemma {:induction false} OnlyIssueIssues(lib: Library, env: string, s: State, choices: seq<Choice>)
    requires forall i | 0 <= i < |choices| :: !choices[i].Issue?
    ensures Run(lib, env, s, choices).issued == s.issued
    decreases |choices|
  {
    if choices != [] {
      OnlyIssueIssues(lib, env, Do(lib, env, s, choices[0]), choices[1..]);
    }
  }

  lemma OperationIssues(lib: Library, env: string, s: State, op: Op, io: FlushIo)
    requires s.proc.Idle? && Accepted(op)
    ensures Run(lib, env, s, OperationChoices(lib, s.proc.key, s.proc.data, op, io)).issued == s.issued + [op]
  {
    var data := Apply(op, s.proc.data);
    var raw := if Drawn(io.nonces, data) then StoreBytes(lib, s.proc.key, io.nonces, data) else [];
    Run1(lib, env, s, Issue(op), FlushChoices(data, raw, io));
    OnlyIssueIssues(lib, env, Do(lib, env, s, Issue(op)), FlushChoices(data, raw, io));
  }

  /** An accepted operation on the class ends in the state that these choices
      end in: same files, same cache, and it is acknowledged exactly when the
      flush succeeds. */
  lemma OperationIsRun(lib: Library, env: string, s: State, op: Op, io: FlushIo)
    requires s.proc.Idle? && Accepted(op) && NonceSized(io.nonces)
    ensures var data := Apply(op, s.proc.data);
            var t := Run(lib, env, s, OperationChoices(lib, s.proc.key, s.proc.data, op, io));
            && t.proc == Idle(s.proc.key, data)
            && t.files == FlushFiles(lib, s.proc.key, data, s.files, io)
            && t.issued == s.issued + [op]
            && t.acked == if FlushSucceeds(data, io) then s.acked + {|s.issued|} else s.acked
  {
    var key, data := s.proc.key, Apply(op, s.proc.data);
    var raw := if Drawn(io.nonces, data) then StoreBytes(lib, key, io.nonces, data) else [];
    var u := Do(lib, env, s, Issue(op));
    Run1(lib, env, s, Issue(op), FlushChoices(data, raw, io));
    OperationIssues(lib, env, s, op, io);
    if Drawn(io.nonces, data) && !io.write.CannotOpen? {
      var v := Do(lib, env, u, SealAndOpenTmp(io.nonces));
      assert v.proc == WritingTmp(key, data, raw);
      FlushRun(lib, env, v, data, raw, io);
      Run1(lib, env, u, SealAndOpenTmp(io.nonces), FlushTail(raw, io));
    }
  }

  lemma {:induction false} RunConcat(lib: Library, env: string, s: State, a: seq<Choice>, b: seq<Choice>)
    ensures Run(lib, env, s, a + b) == Run(lib, env, Run(lib, env, s, a), b)
    decreases |a|
  {
    if a == [] {
      assert a + b == b;
    } else {
      assert (a + b)[1..] == a[1..] + b;
      RunConcat(lib, env, Do(lib, env, s, a[0]), a[1..], b);
    }
  }

  // ----- and so is OpenLocal -----

  ghost function LoadTail(io: OpenIo): seq<Choice> {
    [if io.storeReadFails then Fail else Load]
  }

  ghost function MakeKekTail(random: Bytes, io: OpenIo): seq<Choice> {
    if io.write.Stops? then [WriteKek(Kept(random, io.write.kept))] + [Fail]
    else [WriteKek(|random|)] + ([KekWritten] + LoadTail(io))
  }

  /** The choices that one OpenLocal with given outcomes amounts to. */
  ghost function OpenChoices(lib: Library, env: string, kek: Entry, io: OpenIo): seq<Choice> {
    if io.mkdirFails then []
    else if !ChooseKey(lib, env, kek, io.kekReadFails).Generate? then [Boot([], io.kekReadFails)] + LoadTail(io)
    else if io.random.None? || kek.Directory? || io.write.CannotOpen? then []
    else [Boot(io.random.value, io.kekReadFails)] + MakeKekTail(io.random.value, io)
  }

  /** Where an opening that got this result leaves the process. */
  ghost predicate Settled(s: State, t: State, files: Files, result: Option<Opened>) {
    && t.files == files && t.issued == s.issued && t.acked == s.acked
    && match result
       case None => t.proc.Down?
       case Some(o) => t.proc == Idle(o.key, o.data)
  }

  lemma LoadRun(lib: Library, env: string, s: State, io: OpenIo)
    requires s.proc.Loading?
    ensures var loaded := if s.files.store.None? then Some(map[]) else LoadBytes(lib, s.proc.key, s.files.store.value);
            Settled(s, Run(lib, env, s, LoadTail(io)), s.files,
                    if io.storeReadFails || loaded.None? then None else Some(Opened(s.proc.key, loaded.value)))
  {
    var c := if io.storeReadFails then Fail else Load;
    assert LoadTail(io) == [c] + [];
    Run1(lib, env, s, c, []);
  }

  lemma MakeKekRun(lib: Library, env: string, s: State, random: Bytes, io: OpenIo)
    requires s.proc == MakingKek(random) && s.files.kek == File([]) && !io.write.CannotOpen?
    ensures var t := Run(lib, env, s, MakeKekTail(random, io));
            var kek := File(Written(None, random, io.write).value);
            var u := s.(proc := Loading(random), files := s.files.(kek := kek));
            if io.write.Stops? then Settled(s, t, s.files.(kek := kek), None)
            else t == Run(lib, env, u, LoadTail(io))
  {
    assert random[..|random|] == random;
    if io.write.Stops? {
      var n := Kept(random, io.write.kept);
      Run1(lib, env, s, WriteKek(n), [Fail]);
      var u := Do(lib, env, s, WriteKek(n));
      assert [Fail] == [Fail] + [];
      Run1(lib, env, u, Fail, []);
    } else {
      Run1(lib, env, s, WriteKek(|random|), [KekWritten] + LoadTail(io));
      Run1(lib, env, Do(lib, env, s, WriteKek(|random|)), KekWritten, LoadTail(io));
    }
  }

  lemma BootedRun(lib: Library, env: string, s: State, io: OpenIo)
    requires s.proc.Down? && !io.mkdirFails && !ChooseKey(lib, env, s.files.kek, io.kekReadFails).Generate?
    ensures var (result, files) := OpenResult(lib, env, s.files, io);
            Settled(s, Run(lib, env, Do(lib, env, s, Boot([], io.kekReadFails)), LoadTail(io)), files, result)
  {
    var t := Do(lib, env, s, Boot([], io.kekReadFails));
    if t.proc.Loading? {
      LoadRun(lib, env, t, io);
    } else {
      var c := if io.storeReadFails then Fail else Load;
      assert LoadTail(io) == [c] + [];
      Run1(lib, env, t, c, []);
    }
  }

  /** OpenLocal on the class ends in the files and with the store, if any, that
      these choices end in, whichever of its system calls fail. */
  lemma OpeningIsRun(lib: Library, env: string, s: State, io: OpenIo)
    requires IoSized(io) && s.proc.Down?
    ensures var (result, files) := OpenResult(lib, env, s.files, io);
            Settled(s, Run(lib, env, s, OpenChoices(lib, env, s.files.kek, io)), files, result)
  {
    if !io.mkdirFails {
      var b := ChooseKey(lib, env, s.files.kek, io.kekReadFails);
      if !b.Generate? {
        var c := Boot([], io.kekReadFails);
        Run1(lib, env, s, c, LoadTail(io));
        BootedRun(lib, env, s, io);
      } else if !(io.random.None? || s.files.kek.Directory? || io.write.CannotOpen?) {
        var random := io.random.value;
        var c := Boot(random, io.kekReadFails);
        var t := Do(lib, env, s, c);
        Run1(lib, env, s, c, MakeKekTail(random, io));
        MakeKekRun(lib, env, t, random, io);
        if io.write.Completes? {
          LoadRun(lib, env, t.(proc := Loading(random), files := t.files.(kek := File(random))), io);
        }
      }
    }
  }

  // ----- a run that loses the key -----

  const CLEAN_OPEN := OpenIo(false, false, None, Completes, false)

  /** A store opened for the first time makes its key and keeps it in the file. */
  lemma FirstOpening(lib: Library, random: Bytes) returns (c: seq<Choice>)
    requires |random| == KEK_BYTES
    ensures var t := Run(lib, "", Start(Absent, None), c);
            && t.proc == Idle(random, map[]) && t.files == Files(File(random), None, None)
            && t.issued == [] && t.acked == {}
  {
    var io := CLEAN_OPEN.(random := Some(random));
    c := OpenChoices(lib, "", Absent, io);
    OpeningIsRun(lib, "", Start(Absent, None), io);
  }

  /** Opening it again when the key file cannot be read puts another key there. */
  lemma MisreadOpening(lib: Library, s: State, key: Bytes, random: Bytes) returns (c: seq<Choice>)
    requires s.proc.Down? && s.files.kek == File(key) && |key| == |random| == KEK_BYTES
    ensures var t := Run(lib, "", s, c);
            t.files == s.files.(kek := File(random)) && t.issued == s.issued && t.acked == s.acked
    ensures s.files.store.Some? ==> !Safe(lib, "", s, c)
  {
    var io := CLEAN_OPEN.(random := Some(random), kekReadFails := true);
    c := OpenChoices(lib, "", s.files.kek, io);
    OpeningIsRun(lib, "", s, io);
    assert c[0] == Boot(random, true);
    assert s.files.store.Some? ==> LosesKey(lib, "", s, c[0]);
  }

  lemma {:induction false} SafeSuffix(lib: Library, env: string, s: State, a: seq<Choice>, b: seq<Choice>)
    requires Safe(lib, env, s, a + b)
    ensures Safe(lib, env, Run(lib, env, s, a), b)
    decreases |a|
  {
    if a == [] {
      assert a + b == b;
    } else {
      assert (a + b)[1..] == a[1..] + b;
      SafeSuffix(lib, env, Do(lib, env, s, a[0]), a[1..], b);
    }
  }

  lemma UnsafeSuffix(lib: Library, s: State, a: seq<Choice>, b: seq<Choice>)
    requires !Safe(lib, "", Run(lib, "", s, a), b)
    ensures !Safe(lib, "", s, a + b)
  {
    if Safe(lib, "", s, a + b) { SafeSuffix(lib, "", s, a, b); }
  }

  lemma UnsafeCrash(lib: Library, s: State, c: seq<Choice>)
    requires !Safe(lib, "", Stop(s), c)
    ensures !Safe(lib, "", s, [Crash] + c)
  {
    assert ([Crash] + c)[1..] == c;
  }

  /** The first secret is put and acknowledged. */
  lemma FirstSecret(lib: Library, key: Bytes, op: Op, io: FlushIo) returns (c: seq<Choice>)
    requires |key| == KEK_BYTES
    requires op.Put? && Accepted(op) && NonceSized(io.nonces) && FlushSucceeds(Apply(op, map[]), io)
    ensures var t := Run(lib, "", Start(Absent, None), c);
            && t.files == Files(File(key), None, Some(StoreBytes(lib, key, io.nonces, Apply(op, map[]))))
            && t.issued == [op] && t.acked == {0}
  {
    var c1 := FirstOpening(lib, key);
    var t := Run(lib, "", Start(Absent, None), c1);
    var c2 := OperationChoices(lib, key, map[], op, io);
    OperationIsRun(lib, "", t, op, io);
    c := c1 + c2;
    RunConcat(lib, "", Start(Absent, None), c1, c2);
  }

  /** A secret is put and acknowledged; the process stops, and the next opening
      fails to read the key file. The store file still holds what was sealed
      under the first key, and the key file now holds a second one. */
  lemma MisreadLosesKey(lib: Library, first: Bytes, second: Bytes, op: Op, io: FlushIo) returns (c: seq<Choice>)
    requires lib.Lawful() && |first| == |second| == KEK_BYTES && first != second
    requires op.Put? && Accepted(op) && NonceSized(io.nonces) && FlushSucceeds(Apply(op, map[]), io)
    ensures var t := Run(lib, "", Start(Absent, None), c);
            && t.issued == [op] && t.acked == {0}
            && t.files.store == Some(StoreBytes(lib, first, io.nonces, Apply(op, map[])))
            && t.files.kek == File(second)
    ensures !KeptThroughout(lib, "", Start(Absent, None), c)
  {
    var start := Start(Absent, None);
    var c1 := FirstSecret(lib, first, op, io);
    var t1 := Run(lib, "", start, c1);
    var c2 := MisreadOpening(lib, Stop(t1), first, second);
    c := c1 + ([Crash] + c2);
    RunConcat(lib, "", start, c1, [Crash] + c2);
    Run1(lib, "", t1, Crash, c2);
    UnsafeCrash(lib, t1, c2);
    UnsafeSuffix(lib, start, c1, [Crash] + c2);
    KeyKeptIff(lib, "", Absent, None, c);
  }
}
