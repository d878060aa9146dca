/** The validator's key cache under concurrent Validate calls: each stretch
    under the mutex is one step, and steps of different calls and of the clock
    interleave at will (idp/oidc.go). A run is a sequence of choices; a choice
    that is not enabled changes nothing. */
module OidcCache {
  import opened Wrappers
  import opened Strings
  import opened Base64
  import opened Int64
  import opened Jwks
  import opened Jws

  /** The parts of Validate that need no cache: reading the kid of a token and
      deciding on it under a key at a time in nanoseconds. */
  datatype Checks = Checks(kidOf: string -> Option<string>, verdict: (string, Key, nat) -> Option<Accepted>)

  function ChecksOf(lib: Library, cfg: Config): Checks {
    Checks(token => KidOf(lib, token), (token, key, now) => Verdict(lib, cfg, token, key, now))
  }

  /** The fields the mutex guards; fetched is None for the zero time. */
  datatype Cache = Cache(keys: map<string, Key>, fetched: Option<nat>, jwksUri: string)

  const EMPTY := Cache(map[], None, "")

  /** The outcomes of the HTTP calls in one ensureKeys: the discovered URI, the
      parsed document, and the time they took. */
  datatype FetchIo = FetchIo(discovered: Option<string>, document: Option<seq<Jwk>>, elapsed: nat)

  /** What one ensureKeys did: whether it succeeded, fetched the document, and
      installed a key set. */
  datatype Ensured = Ensured(cache: Cache, ok: bool, requested: bool, installed: bool)

  predicate IsFresh(cfg: Config, cache: Cache, now: nat) {
    cache.keys != map[] && cache.fetched.Some? && now - cache.fetched.value < cfg.ttl
  }

  /** An unset URI is discovered first; a request to an empty URI fails. */
  function Ensure(cfg: Config, cache: Cache, now: nat, io: FetchIo): Ensured {
    if IsFresh(cfg, cache, now) then Ensured(cache, true, false, false)
    else if cache.jwksUri == "" && io.discovered.None? then Ensured(cache, false, false, false)
    else
      var uri := if cache.jwksUri == "" then io.discovered.value else cache.jwksUri;
      var c := cache.(jwksUri := uri);
      if uri == "" || io.document.None? then Ensured(c, false, true, false)
      else
        var keys := KeySet(UsableKeys(io.document.value));
        if keys == map[] then Ensured(c, false, true, false)
        else Ensured(c.(keys := keys, fetched := Some(now + io.elapsed)), true, true, true)
  }

  lemma SoleKey(keys: map<string, Key>)
    requires |keys| == 1
    ensures exists k :: k in keys && forall j | j in keys :: j == k
  {
    var k :| k in keys.Keys;
    assert |keys.Keys - {k}| == 0;
    assert keys.Keys == {k};
  }

  /** The first lookup falls back on a sole key; the one after a refresh does not. */
  function Find(keys: map<string, Key>, kid: string, fallback: bool): Option<Key> {
    if kid in keys then Some(keys[kid])
    else if fallback && |keys| == 1 then
      SoleKey(keys);
      var k :| k in keys && forall j | j in keys :: j == k;
      Some(keys[k])
    else None
  }

  /** What the lookup returns, for every key set: the key of that name, or, on
      the first lookup, the set's only key. */
  lemma FindMeaning(keys: map<string, Key>, kid: string, fallback: bool, key: Key)
    ensures Find(keys, kid, fallback) == Some(key)
            <==> if kid in keys then keys[kid] == key else fallback && |keys| == 1 && key in keys.Values
  {
    if |keys| == 1 {
      SoleKey(keys);
    }
  }

  // ----- interleaved calls -----

  datatype Pc =
    | Started
    | Holding
    | Missed
    | Reset
    | Renewed
    | Verifying(key: Key, from: nat)
    | Done(key: Key, from: nat, result: Accepted, at: nat)
    | Refused

  /** A call: its trimmed token, where it is, the time of its last ensureKeys
      and the number of the key set then in force, and its JWKS requests. */
  datatype Call = Call(token: string, pc: Pc, ensuredAt: nat, ensuredSet: nat, requests: nat)

  /** An installed key set and when. */
  datatype Installed = Installed(keys: map<string, Key>, time: nat)

  datatype State = State(now: nat, cache: Cache, sets: seq<Installed>, calls: map<nat, Call>)

  const START := State(0, EMPTY, [], map[])

  datatype Choice =
    | Tick(elapsed: nat)
    | Arrive(id: nat, token: string)
    | EnsureKeys(id: nat, io: FetchIo)
    | Lookup(id: nat)
    | Invalidate(id: nat)
    | LookupAgain(id: nat)
    | Verify(id: nat)

  function Put(s: State, id: nat, call: Call): State {
    s.(calls := s.calls[id := call])
  }

  function EnsureStep(cfg: Config, s: State, id: nat, io: FetchIo): State
    requires id in s.calls
  {
    var call := s.calls[id];
    if !call.pc.Started? && !call.pc.Reset? then s
    else
      var e := Ensure(cfg, s.cache, s.now, io);
      var now := s.now + (if e.requested then io.elapsed else 0);
      var sets := if e.installed then s.sets + [Installed(e.cache.keys, now)] else s.sets;
      var requests := call.requests + (if e.requested then 1 else 0);
      var next :=
        if !e.ok || sets == [] then call.(pc := Refused, requests := requests)
        else call.(pc := if call.pc.Started? then Holding else Renewed,
                   requests := requests, ensuredAt := now, ensuredSet := |sets| - 1);
      State(now, e.cache, sets, s.calls[id := next])
  }

  function LookupStep(checks: Checks, s: State, id: nat, again: bool): State
    requires id in s.calls
  {
    var call := s.calls[id];
    if !(if again then call.pc.Renewed? else call.pc.Holding?) || s.sets == [] then s
    else
      match checks.kidOf(call.token)
      case None => Put(s, id, call.(pc := Refused))
      case Some(kid) =>
        match Find(s.cache.keys, kid, !again)
        case Some(key) => Put(s, id, call.(pc := Verifying(key, |s.sets| - 1)))
        case None => Put(s, id, call.(pc := if again then Refused else Missed))
  }

  function VerifyStep(checks: Checks, cfg: Config, s: State, id: nat): State
    requires id in s.calls
  {
    var call := s.calls[id];
    if !call.pc.Verifying? then s
    else
      match checks.verdict(call.token, call.pc.key, s.now)
      case None => Put(s, id, call.(pc := Refused))
      case Some(a) => Put(s, id, call.(pc := Done(call.pc.key, call.pc.from, a, s.now)))
  }

  function Do(checks: Checks, cfg: Config, s: State, c: Choice): State {
    match c
    case Tick(elapsed) => s.(now := s.now + elapsed)
    case Arrive(id, token) =>
      if id in s.calls then s
      else
        var t := TrimSpace(token);
        Put(s, id, Call(t, if t == "" then Refused else Started, 0, 0, 0))
    case EnsureKeys(id, io) => if id in s.calls then EnsureStep(cfg, s, id, io) else s
    case Lookup(id) => if id in s.calls then LookupStep(checks, s, id, false) else s
    case Invalidate(id) =>
      if id in s.calls && s.calls[id].pc.Missed?
      then Put(s, id, s.calls[id].(pc := Reset)).(cache := s.cache.(fetched := None)) else s
    case LookupAgain(id) => if id in s.calls then LookupStep(checks, s, id, true) else s
    case Verify(id) => if id in s.calls then VerifyStep(checks, cfg, s, id) else s
  }

  function Run(checks: Checks, cfg: Config, s: State, choices: seq<Choice>): State
    decreases |choices|
  {
    if choices == [] then s else Run(checks, cfg, Do(checks, cfg, s, choices[0]), choices[1..])
  }

  // ----- the invariant -----

  ghost predicate SetsOk(s: State) {
    && (s.sets == [] ==> s.cache.keys == map[] && s.cache.fetched == None)
    && (s.sets != [] ==>
          var last := s.sets[|s.sets| - 1];
          && s.cache.keys == last.keys && s.cache.jwksUri != ""
          && (s.cache.fetched.Some? ==> s.cache.fetched.value == last.time))
    && (forall i | 0 <= i < |s.sets| :: s.sets[i].keys != map[] && s.sets[i].time <= s.now)
    && (forall i, j | 0 <= i < j < |s.sets| :: s.sets[i].time <= s.sets[j].time)
  }

  /** The set in force at the call's last ensureKeys was younger than the TTL. */
  ghost predicate EnsuredFresh(cfg: Config, s: State, call: Call) {
    && call.ensuredSet < |s.sets| && call.ensuredAt <= s.now
    && s.sets[call.ensuredSet].time <= call.ensuredAt < s.sets[call.ensuredSet].time + cfg.ttl
  }

  /** The key a set gives a token: the one of its kid, or else the only one. */
  ghost predicate Chosen(checks: Checks, keys: map<string, Key>, token: string, key: Key) {
    var kid := checks.kidOf(token);
    kid.Some? && if kid.value in keys then keys[kid.value] == key else |keys| == 1 && key in keys.Values
  }

  /** The key was chosen from that set or from a later one. */
  ghost predicate KeyFrom(checks: Checks, s: State, call: Call, key: Key, from: nat) {
    call.ensuredSet <= from < |s.sets| && Chosen(checks, s.sets[from].keys, call.token, key)
  }

  ghost predicate CallOk(checks: Checks, cfg: Config, s: State, call: Call) {
    match call.pc
    case Started => call.requests == 0
    case Holding => EnsuredFresh(cfg, s, call) && call.requests <= 1
    case Missed => call.requests <= 1
    case Reset => call.requests <= 1
    case Renewed => EnsuredFresh(cfg, s, call) && call.requests <= 2
    case Verifying(key, from) => EnsuredFresh(cfg, s, call) && KeyFrom(checks, s, call, key, from) && call.requests <= 2
    case Done(key, from, result, at) =>
      && EnsuredFresh(cfg, s, call) && KeyFrom(checks, s, call, key, from) && call.requests <= 2
      && at <= s.now && checks.verdict(call.token, key, at) == Some(result)
    case Refused => call.requests <= 2
  }

  ghost predicate Inv(checks: Checks, cfg: Config, s: State) {
    SetsOk(s) && forall id | id in s.calls :: CallOk(checks, cfg, s, s.calls[id])
  }

  /** Time passes and sets are added, never taken away. */
  ghost predicate Later(s: State, t: State) {
    s.now <= t.now && s.sets <= t.sets
  }

  lemma CallKept(checks: Checks, cfg: Config, s: State, t: State, call: Call)
    requires CallOk(checks, cfg, s, call) && Later(s, t)
    ensures CallOk(checks, cfg, t, call)
  {
    assert forall i | 0 <= i < |s.sets| :: t.sets[i] == s.sets[i];
  }

  lemma CallsKept(checks: Checks, cfg: Config, s: State, t: State, id: nat)
    requires Inv(checks, cfg, s) && Later(s, t) && SetsOk(t)
    requires id in t.calls && t.calls == s.calls[id := t.calls[id]]
    requires CallOk(checks, cfg, t, t.calls[id])
    ensures Inv(checks, cfg, t)
  {
    forall j | j in t.calls ensures CallOk(checks, cfg, t, t.calls[j]) {
      if j != id { CallKept(checks, cfg, s, t, s.calls[j]); }
    }
  }

  lemma EnsureKeepsSets(cfg: Config, s: State, id: nat, io: FetchIo)
    requires SetsOk(s) && id in s.calls
    ensures SetsOk(EnsureStep(cfg, s, id, io)) && Later(s, EnsureStep(cfg, s, id, io))
  {
    var t := EnsureStep(cfg, s, id, io);
    assert forall i | 0 <= i < |s.sets| :: t.sets[i] == s.sets[i];
  }

  lemma EnsureKeepsInv(checks: Checks, cfg: Config, s: State, id: nat, io: FetchIo)
    requires Inv(checks, cfg, s) && id in s.calls && cfg.ttl > 0
    ensures Inv(checks, cfg, EnsureStep(cfg, s, id, io))
  {
    var t := EnsureStep(cfg, s, id, io);
    EnsureKeepsSets(cfg, s, id, io);
    if s.calls[id].pc.Started? || s.calls[id].pc.Reset? {
      assert CallOk(checks, cfg, s, s.calls[id]);
      CallsKept(checks, cfg, s, t, id);
    }
  }

  lemma LookupCallOk(checks: Checks, cfg: Config, s: State, id: nat, again: bool)
    requires SetsOk(s) && id in s.calls && CallOk(checks, cfg, s, s.calls[id])
    ensures var t := LookupStep(checks, s, id, again); CallOk(checks, cfg, t, t.calls[id])
  {
    var pc := LookupStep(checks, s, id, again).calls[id].pc;
    var kid := checks.kidOf(s.calls[id].token);
    if pc.Verifying? && kid.Some? {
      FindMeaning(s.cache.keys, kid.value, !again, pc.key);
    }
  }

  lemma LookupKeepsInv(checks: Checks, cfg: Config, s: State, id: nat, again: bool)
    requires Inv(checks, cfg, s) && id in s.calls
    ensures Inv(checks, cfg, LookupStep(checks, s, id, again))
  {
    var t := LookupStep(checks, s, id, again);
    if t != s {
      LookupCallOk(checks, cfg, s, id, again);
      CallsKept(checks, cfg, s, t, id);
    }
  }

  lemma VerifyKeepsInv(checks: Checks, cfg: Config, s: State, id: nat)
    requires Inv(checks, cfg, s) && id in s.calls
    ensures Inv(checks, cfg, VerifyStep(checks, cfg, s, id))
  {
    var t := VerifyStep(checks, cfg, s, id);
    assert CallOk(checks, cfg, s, s.calls[id]);
    if s.calls[id].pc.Verifying? {
      CallsKept(checks, cfg, s, t, id);
    }
  }

  lemma TickKeepsInv(checks: Checks, cfg: Config, s: State, elapsed: nat)
    requires Inv(checks, cfg, s)
    ensures Inv(checks, cfg, s.(now := s.now + elapsed))
  {
    var t := s.(now := s.now + elapsed);
    forall j | j in t.calls ensures CallOk(checks, cfg, t, t.calls[j]) {
      CallKept(checks, cfg, s, t, s.calls[j]);
    }
  }

  lemma ArriveKeepsInv(checks: Checks, cfg: Config, s: State, id: nat, token: string)
    requires Inv(checks, cfg, s)
    ensures Inv(checks, cfg, Do(checks, cfg, s, Arrive(id, token)))
  {
    if id !in s.calls {
      CallsKept(checks, cfg, s, Do(checks, cfg, s, Arrive(id, token)), id);
    }
  }

  lemma InvalidateKeepsInv(checks: Checks, cfg: Config, s: State, id: nat)
    requires Inv(checks, cfg, s)
    ensures Inv(checks, cfg, Do(checks, cfg, s, Invalidate(id)))
  {
    if id in s.calls && s.calls[id].pc.Missed? {
      assert CallOk(checks, cfg, s, s.calls[id]);
      CallsKept(checks, cfg, s, Do(checks, cfg, s, Invalidate(id)), id);
    }
  }

  lemma DoKeepsInv(checks: Checks, cfg: Config, s: State, c: Choice)
    requires Inv(checks, cfg, s) && cfg.ttl > 0
    ensures Inv(checks, cfg, Do(checks, cfg, s, c))
  {
    match c
    case Tick(elapsed) => TickKeepsInv(checks, cfg, s, elapsed);
    case Arrive(id, token) => ArriveKeepsInv(checks, cfg, s, id, token);
    case EnsureKeys(id, io) => if id in s.calls { EnsureKeepsInv(checks, cfg, s, id, io); }
    case Lookup(id) => if id in s.calls { LookupKeepsInv(checks, cfg, s, id, false); }
    case Invalidate(id) => InvalidateKeepsInv(checks, cfg, s, id);
    case LookupAgain(id) => if id in s.calls { LookupKeepsInv(checks, cfg, s, id, true); }
    case Verify(id) => if id in s.calls { VerifyKeepsInv(checks, cfg, s, id); }
  }

  lemma DoIsLater(checks: Checks, cfg: Config, s: State, c: Choice)
    requires SetsOk(s)
    ensures Later(s, Do(checks, cfg, s, c))
  {
    if c.EnsureKeys? && c.id in s.calls {
      EnsureKeepsSets(cfg, s, c.id, c.io);
    }
  }

  lemma {:induction false} RunKeepsInv(checks: Checks, cfg: Config, s: State, choices: seq<Choice>)
    requires Inv(checks, cfg, s) && cfg.ttl > 0
    ensures Inv(checks, cfg, Run(checks, cfg, s, choices)) && Later(s, Run(checks, cfg, s, choices))
    decreases |choices|
  {
    if choices != [] {
      DoKeepsInv(checks, cfg, s, choices[0]);
      DoIsLater(checks, cfg, s, choices[0]);
      RunKeepsInv(checks, cfg, Do(checks, cfg, s, choices[0]), choices[1..]);
    }
  }

  // ----- the theorems -----

  /** In every interleaving, a token that was accepted passed the verdict under
      the key that its kid names (or the sole key) in a set that was in force,
      and younger than the TTL, at that call's last ensureKeys, or in a set
      installed later; and no call ever makes more than two JWKS requests. */
  lemma AcceptedUnderFreshKeys(checks: Checks, cfg: Config, choices: seq<Choice>, id: nat)
    requires cfg.ttl > 0 && id in Run(checks, cfg, START, choices).calls
    ensures var s := Run(checks, cfg, START, choices);
            var call := s.calls[id];
            && call.requests <= 2
            && (call.pc.Done? ==>
                  && call.ensuredSet <= call.pc.from < |s.sets|
                  && s.sets[call.ensuredSet].time <= call.ensuredAt < s.sets[call.ensuredSet].time + cfg.ttl
                  && Chosen(checks, s.sets[call.pc.from].keys, call.token, call.pc.key)
                  && checks.verdict(call.token, call.pc.key, call.pc.at) == Some(call.pc.result))
  {
    RunKeepsInv(checks, cfg, START, choices);
    assert CallOk(checks, cfg, Run(checks, cfg, START, choices), Run(checks, cfg, START, choices).calls[id]);
  }

  /** The same with the real checks: an accepted token carries a signature that
      verifies under a key of such a set, over exactly the text whose middle
      part the returned claims were parsed from. */
  lemma AcceptedClaimsWereSigned(lib: Library, cfg: Config, choices: seq<Choice>, id: nat)
    requires cfg.ttl > 0
    requires var calls := Run(ChecksOf(lib, cfg), cfg, START, choices).calls; id in calls && calls[id].pc.Done?
    ensures var s := Run(ChecksOf(lib, cfg), cfg, START, choices);
            var call := s.calls[id];
            && call.pc.from < |s.sets|
            && Chosen(ChecksOf(lib, cfg), s.sets[call.pc.from].keys, call.token, call.pc.key)
            && exists payload :: SignedPayload(lib, call.token, call.pc.key, payload)
                                 && lib.parseClaims(payload) == Some(call.pc.result.claims)
  {
    AcceptedUnderFreshKeys(ChecksOf(lib, cfg), cfg, choices, id);
    var call := Run(ChecksOf(lib, cfg), cfg, START, choices).calls[id];
    AcceptedIff(lib, cfg, call.token, call.pc.key, call.pc.at);
  }

  /** Whatever happens after a point in a run, keys once present stay present
      (perhaps replaced) and a URI once set stays the same. */
  lemma CacheOnlyImproves(checks: Checks, cfg: Config, before: seq<Choice>, after: seq<Choice>)
    requires cfg.ttl > 0
    ensures var s := Run(checks, cfg, START, before);
            var t := Run(checks, cfg, s, after);
            && (s.cache.keys != map[] ==> t.cache.keys != map[])
            && (s.cache.jwksUri != "" ==> t.cache.jwksUri == s.cache.jwksUri)
  {
    var s := Run(checks, cfg, START, before);
    RunKeepsInv(checks, cfg, START, before);
    RunKeepsInv(checks, cfg, s, after);
    if s.cache.jwksUri != "" { UriKept(checks, cfg, s, after); }
  }

  lemma {:induction false} UriKept(checks: Checks, cfg: Config, s: State, choices: seq<Choice>)
    requires s.cache.jwksUri != ""
    ensures Run(checks, cfg, s, choices).cache.jwksUri == s.cache.jwksUri
    decreases |choices|
  {
    if choices != [] {
      UriKept(checks, cfg, Do(checks, cfg, s, choices[0]), choices[1..]);
    }
  }

  /** A call to ensureKeys that fails leaves the keys and their time alone; one
      that succeeds leaves a non-empty set that is fresh at its end. Only a cache
      that is not fresh is refetched, and a URI once discovered is kept even when
      the fetch fails. */
  lemma EnsureAllOrNothing(cfg: Config, cache: Cache, now: nat, io: FetchIo)
    requires cfg.ttl > 0
    ensures var e := Ensure(cfg, cache, now, io);
            && (!e.ok ==> e.cache.keys == cache.keys && e.cache.fetched == cache.fetched)
            && (e.ok ==> IsFresh(cfg, e.cache, now + (if e.requested then io.elapsed else 0)))
            && (cache.jwksUri != "" ==> e.cache.jwksUri == cache.jwksUri)
            && (e.requested <==> !IsFresh(cfg, cache, now) && (cache.jwksUri != "" || io.discovered.Some?))
            && (e.requested && cache.jwksUri == "" ==> e.cache.jwksUri == io.discovered.value)
            && (!e.requested ==> e.cache == cache) && (e.installed <==> e.ok && e.requested)
  {}

  lemma {:induction false} RunSnoc(checks: Checks, cfg: Config, s: State, choices: seq<Choice>, c: Choice)
    ensures Run(checks, cfg, s, choices + [c]) == Do(checks, cfg, Run(checks, cfg, s, choices), c)
    decreases |choices|
  {
    if choices == [] {
      assert [] + [c] == [c];
    } else {
      assert (choices + [c])[1..] == choices[1..] + [c];
      RunSnoc(checks, cfg, Do(checks, cfg, s, choices[0]), choices[1..], c);
    }
  }

  /** An unknown kid has zeroed the time since the last key set was installed. */
  ghost predicate Cleared(checks: Checks, cfg: Config, choices: seq<Choice>) {
    choices != [] &&
    var init := choices[..|choices| - 1];
    var s := Run(checks, cfg, START, init);
    var t := Do(checks, cfg, s, choices[|choices| - 1]);
    || (choices[|choices| - 1].Invalidate? && t != s)
    || (|t.sets| == |s.sets| && Cleared(checks, cfg, init))
  }

  lemma {:induction false} ClearedMeaning(checks: Checks, cfg: Config, choices: seq<Choice>)
    requires cfg.ttl > 0
    ensures var s := Run(checks, cfg, START, choices);
            s.sets != [] ==> (s.cache.fetched.None? <==> Cleared(checks, cfg, choices))
  {
    if choices != [] {
      var init, c := choices[..|choices| - 1], choices[|choices| - 1];
      assert choices == init + [c];
      RunSnoc(checks, cfg, START, init, c);
      ClearedMeaning(checks, cfg, init);
      RunKeepsInv(checks, cfg, START, init);
      FetchedAfter(checks, cfg, Run(checks, cfg, START, init), c);
    }
  }

  lemma FetchedAfter(checks: Checks, cfg: Config, s: State, c: Choice)
    ensures var t := Do(checks, cfg, s, c);
            && (c.Invalidate? && t != s ==> t.cache.fetched.None? && t.sets == s.sets)
            && (|t.sets| != |s.sets| ==> t.cache.fetched.Some?)
            && (!(c.Invalidate? && t != s) && |t.sets| == |s.sets| ==> t.cache.fetched == s.cache.fetched)
  {}

  /** In every reachable state, a cache whose key set is younger than the TTL is
      fresh exactly unless an unknown kid has zeroed its time since the set was
      installed, without a fetch having succeeded since. */
  lemma YoungIsFreshIff(checks: Checks, cfg: Config, choices: seq<Choice>)
    requires cfg.ttl > 0
    ensures var s := Run(checks, cfg, START, choices);
            s.sets != [] && s.now < s.sets[|s.sets| - 1].time + cfg.ttl ==>
              (IsFresh(cfg, s.cache, s.now) <==> !Cleared(checks, cfg, choices))
  {
    RunKeepsInv(checks, cfg, START, choices);
    ClearedMeaning(checks, cfg, choices);
    YoungIsFresh(cfg, Run(checks, cfg, START, choices));
  }

  lemma YoungIsFresh(cfg: Config, s: State)
    requires SetsOk(s)
    ensures s.sets != [] && s.now < s.sets[|s.sets| - 1].time + cfg.ttl ==>
              (IsFresh(cfg, s.cache, s.now) <==> s.cache.fetched.Some?)
  {}

  // ----- the validator -----

  /** The OIDC struct, updated in place. */
  class Validator {
    const lib: Library
    const cfg: Config
    var keys: map<string, Key>
    var fetched: Option<nat>
    var jwksUri: string

    ghost function Value(): Cache
      reads this
    {
      Cache(keys, fetched, jwksUri)
    }

    constructor (lib: Library, cfg: Config)
      ensures this.lib == lib && this.cfg == cfg && Value() == EMPTY
    {
      this.lib, this.cfg := lib, cfg;
      keys, fetched, jwksUri := map[], None, "";
    }

    /** ensureKeys, and the time it returns at. */
    method Refresh(now: nat, io: FetchIo) returns (ok: bool, at: nat)
      modifies this
      ensures var e := Ensure(cfg, old(Value()), now, io);
              ok == e.ok && Value() == e.cache && at == After(now, e, io)
    {
      if |keys| > 0 && fetched.Some? && now - fetched.value < cfg.ttl {
        return true, now;
      }
      var uri := jwksUri;
      if uri == "" {
        if io.discovered.None? {
          return false, now;
        }
        uri := io.discovered.value;
        jwksUri := uri;
      }
      if uri == "" || io.document.None? {
        return false, now + io.elapsed;
      }
      var collected := CollectKeys(io.document.value);
      if |collected| == 0 {
        return false, now + io.elapsed;
      }
      keys := collected;
      fetched := Some(now + io.elapsed);
      return true, now + io.elapsed;
    }

    method FindKey(kid: string, fallback: bool) returns (key: Option<Key>)
      ensures key == Find(keys, kid, fallback)
    {
      if kid in keys {
        return Some(keys[kid]);
      }
      if fallback && |keys| == 1 {
        SoleKey(keys);
        var k :| k in keys;
        return Some(keys[k]);
      }
      return None;
    }

    /** The key for a kid, refreshing once when it is unknown. */
    method KeyFor(kid: string, now: nat, io: FetchIo) returns (key: Option<Key>, at: nat)
      modifies this
      ensures (key, Value(), at) == FindOrRefresh(cfg, old(Value()), kid, now, io)
    {
      key := FindKey(kid, true);
      at := now;
      if key.None? {
        fetched := None;
        var ok;
        ok, at := Refresh(now, io);
        if ok {
          key := FindKey(kid, false);
        }
      }
    }

    /** A Validate call that no other call interleaves with; None stands for
        every error. */
    method Validate(token: string, now: nat, first: FetchIo, second: FetchIo) returns (r: Option<Accepted>)
      modifies this
      ensures (r, Value()) == ValidateAlone(ChecksOf(lib, cfg), cfg, old(Value()), token, now, first, second)
    {
      var t := TrimSpace(token);
      if t == "" {
        return None;
      }
      var ok, at := Refresh(now, first);
      if !ok {
        return None;
      }
      var kid := KidOf(lib, t);
      if kid.None? {
        return None;
      }
      var key;
      key, at := KeyFor(kid.value, at, second);
      if key.None? {
        return None;
      }
      return Verdict(lib, cfg, t, key.value, at);
    }
  }

  function After(now: nat, e: Ensured, io: FetchIo): nat {
    now + (if e.requested then io.elapsed else 0)
  }

  function FindOrRefresh(cfg: Config, cache: Cache, kid: string, now: nat, io: FetchIo): (Option<Key>, Cache, nat) {
    var key := Find(cache.keys, kid, true);
    if key.Some? then (key, cache, now)
    else
      var e := Ensure(cfg, cache.(fetched := None), now, io);
      (if e.ok then Find(e.cache.keys, kid, false) else None, e.cache, After(now, e, io))
  }

  function ValidateEnsured(checks: Checks, cfg: Config, cache: Cache, t: string, now: nat,
                           io: FetchIo): (Option<Accepted>, Cache)
  {
    var kid := checks.kidOf(t);
    if kid.None? then (None, cache)
    else
      var (key, c, at) := FindOrRefresh(cfg, cache, kid.value, now, io);
      (if key.Some? then checks.verdict(t, key.value, at) else None, c)
  }

  function ValidateTrimmed(checks: Checks, cfg: Config, cache: Cache, t: string, now: nat,
                           first: FetchIo, second: FetchIo): (Option<Accepted>, Cache)
  {
    var e := Ensure(cfg, cache, now, first);
    if !e.ok then (None, e.cache) else ValidateEnsured(checks, cfg, e.cache, t, After(now, e, first), second)
  }

  function ValidateAlone(checks: Checks, cfg: Config, cache: Cache, token: string, now: nat,
                         first: FetchIo, second: FetchIo): (Option<Accepted>, Cache)
  {
    var t := TrimSpace(token);
    if t == "" then (None, cache) else ValidateTrimmed(checks, cfg, cache, t, now, first, second)
  }

  // ----- the class's Validate is one of the runs above -----

  /** What call id comes to when only its own remaining steps are taken. */
  ghost predicate Settles(checks: Checks, cfg: Config, s: State, id: nat, steps: seq<Choice>,
                          r: Option<Accepted>, cache: Cache)
  {
    var t := Run(checks, cfg, s, steps);
    && id in t.calls && t.cache == cache
    && (r.Some? <==> t.calls[id].pc.Done?) && (r.Some? ==> t.calls[id].pc.result == r.value)
  }

  predicate OwnStep(c: Choice, id: nat) {
    match c
    case EnsureKeys(i, _) => i == id
    case Lookup(i) => i == id
    case Invalidate(i) => i == id
    case LookupAgain(i) => i == id
    case Verify(i) => i == id
    case _ => false
  }

  predicate AllOwn(steps: seq<Choice>, id: nat) {
    forall i | 0 <= i < |steps| :: OwnStep(steps[i], id)
  }

  lemma CallStepsOwn(id: nat, first: FetchIo, second: FetchIo)
    ensures AllOwn(CallSteps(id, first, second), id)
    ensures AllOwn([Lookup(id)] + RefreshSteps(id, second), id)
    ensures AllOwn(RefreshSteps(id, second), id)
    ensures AllOwn([LookupAgain(id)] + [Verify(id)], id)
  {}

  lemma {:induction false} RefusedStays(checks: Checks, cfg: Config, s: State, id: nat, steps: seq<Choice>)
    requires id in s.calls && s.calls[id].pc.Refused? && AllOwn(steps, id)
    ensures Settles(checks, cfg, s, id, steps, None, s.cache)
    decreases |steps|
  {
    if steps != [] {
      assert Do(checks, cfg, s, steps[0]) == s;
      RefusedStays(checks, cfg, s, id, steps[1..]);
    }
  }

  lemma VerifyRun(checks: Checks, cfg: Config, s: State, id: nat)
    requires id in s.calls && s.calls[id].pc.Verifying?
    ensures Settles(checks, cfg, s, id, [Verify(id)],
                    checks.verdict(s.calls[id].token, s.calls[id].pc.key, s.now), s.cache)
  {
    assert [Verify(id)][1..] == [];
    assert Run(checks, cfg, s, [Verify(id)]) == VerifyStep(checks, cfg, s, id);
  }

  lemma NextStep(checks: Checks, cfg: Config, s: State, c: Choice, rest: seq<Choice>)
    ensures Run(checks, cfg, s, [c] + rest) == Run(checks, cfg, Do(checks, cfg, s, c), rest)
  {
    assert ([c] + rest)[1..] == rest;
  }

  ghost function RefreshSteps(id: nat, io: FetchIo): seq<Choice> {
    [Invalidate(id)] + ([EnsureKeys(id, io)] + ([LookupAgain(id)] + [Verify(id)]))
  }

  lemma AgainRun(checks: Checks, cfg: Config, s: State, id: nat, kid: string)
    requires s.sets != [] && id in s.calls && s.calls[id].pc.Renewed?
    requires checks.kidOf(s.calls[id].token) == Some(kid)
    ensures var key := Find(s.cache.keys, kid, false);
            Settles(checks, cfg, s, id, [LookupAgain(id)] + [Verify(id)],
                    if key.Some? then checks.verdict(s.calls[id].token, key.value, s.now) else None, s.cache)
  {
    var t := LookupStep(checks, s, id, true);
    NextStep(checks, cfg, s, LookupAgain(id), [Verify(id)]);
    if t.calls[id].pc.Verifying? {
      VerifyRun(checks, cfg, t, id);
    } else {
      RefusedStays(checks, cfg, t, id, [Verify(id)]);
    }
  }

  lemma EnsureReaches(cfg: Config, s: State, id: nat, io: FetchIo)
    requires SetsOk(s) && id in s.calls && (s.calls[id].pc.Started? || s.calls[id].pc.Reset?)
    ensures var e := Ensure(cfg, s.cache, s.now, io);
            var t := EnsureStep(cfg, s, id, io);
            && t.cache == e.cache && t.now == After(s.now, e, io) && id in t.calls
            && t.calls[id].token == s.calls[id].token
            && t.calls[id].pc == (if !e.ok then Refused else if s.calls[id].pc.Started? then Holding else Renewed)
            && (e.ok ==> t.sets != [])
  {}

  lemma RefreshRun(checks: Checks, cfg: Config, s: State, id: nat, io: FetchIo, kid: string)
    requires SetsOk(s) && id in s.calls && s.calls[id].pc.Missed?
    requires checks.kidOf(s.calls[id].token) == Some(kid)
    ensures var e := Ensure(cfg, s.cache.(fetched := None), s.now, io);
            var key := if e.ok then Find(e.cache.keys, kid, false) else None;
            Settles(checks, cfg, s, id, RefreshSteps(id, io),
                    if key.Some? then checks.verdict(s.calls[id].token, key.value, After(s.now, e, io)) else None,
                    e.cache)
  {
    var s1 := Do(checks, cfg, s, Invalidate(id));
    var s2 := EnsureStep(cfg, s1, id, io);
    var rest := [LookupAgain(id)] + [Verify(id)];
    NextStep(checks, cfg, s, Invalidate(id), [EnsureKeys(id, io)] + rest);
    NextStep(checks, cfg, s1, EnsureKeys(id, io), rest);
    EnsureReaches(cfg, s1, id, io);
    if s2.calls[id].pc.Renewed? {
      AgainRun(checks, cfg, s2, id, kid);
    } else {
      CallStepsOwn(id, io, io);
      RefusedStays(checks, cfg, s2, id, rest);
    }
  }

  lemma FoundRun(checks: Checks, cfg: Config, s: State, id: nat, io: FetchIo)
    requires id in s.calls && s.calls[id].pc.Verifying?
    ensures Settles(checks, cfg, s, id, RefreshSteps(id, io),
                    checks.verdict(s.calls[id].token, s.calls[id].pc.key, s.now), s.cache)
  {
    NextStep(checks, cfg, s, Invalidate(id), [EnsureKeys(id, io)] + ([LookupAgain(id)] + [Verify(id)]));
    NextStep(checks, cfg, s, EnsureKeys(id, io), [LookupAgain(id)] + [Verify(id)]);
    NextStep(checks, cfg, s, LookupAgain(id), [Verify(id)]);
    VerifyRun(checks, cfg, s, id);
  }

  lemma LookupRun(checks: Checks, cfg: Config, s: State, id: nat, io: FetchIo)
    requires SetsOk(s) && s.sets != [] && id in s.calls && s.calls[id].pc.Holding?
    ensures var v := ValidateEnsured(checks, cfg, s.cache, s.calls[id].token, s.now, io);
            Settles(checks, cfg, s, id, [Lookup(id)] + RefreshSteps(id, io), v.0, v.1)
  {
    var t := LookupStep(checks, s, id, false);
    var kid := checks.kidOf(s.calls[id].token);
    NextStep(checks, cfg, s, Lookup(id), RefreshSteps(id, io));
    if kid.None? {
      CallStepsOwn(id, io, io);
      RefusedStays(checks, cfg, t, id, RefreshSteps(id, io));
    } else if Find(s.cache.keys, kid.value, true).None? {
      RefreshRun(checks, cfg, t, id, io, kid.value);
    } else {
      FoundRun(checks, cfg, t, id, io);
    }
  }

  ghost function CallSteps(id: nat, first: FetchIo, second: FetchIo): seq<Choice> {
    [EnsureKeys(id, first)] + ([Lookup(id)] + RefreshSteps(id, second))
  }

  lemma StartedFails(checks: Checks, cfg: Config, s: State, id: nat, first: FetchIo, second: FetchIo)
    requires SetsOk(s) && id in s.calls && s.calls[id].pc.Started?
    requires !Ensure(cfg, s.cache, s.now, first).ok
    ensures Settles(checks, cfg, s, id, CallSteps(id, first, second), None, Ensure(cfg, s.cache, s.now, first).cache)
  {
    var rest := [Lookup(id)] + RefreshSteps(id, second);
    NextStep(checks, cfg, s, EnsureKeys(id, first), rest);
    EnsureReaches(cfg, s, id, first);
    CallStepsOwn(id, first, second);
    RefusedStays(checks, cfg, EnsureStep(cfg, s, id, first), id, rest);
  }

  lemma StartedGoesOn(checks: Checks, cfg: Config, s: State, id: nat, first: FetchIo, second: FetchIo, e: Ensured)
    requires SetsOk(s) && id in s.calls && s.calls[id].pc.Started?
    requires e == Ensure(cfg, s.cache, s.now, first) && e.ok
    ensures var v := ValidateEnsured(checks, cfg, e.cache, s.calls[id].token, After(s.now, e, first), second);
            Settles(checks, cfg, s, id, CallSteps(id, first, second), v.0, v.1)
  {
    var t := EnsureStep(cfg, s, id, first);
    NextStep(checks, cfg, s, EnsureKeys(id, first), [Lookup(id)] + RefreshSteps(id, second));
    EnsureKeepsSets(cfg, s, id, first);
    EnsureReaches(cfg, s, id, first);
    LookupRun(checks, cfg, t, id, second);
  }

  lemma StartedRun(checks: Checks, cfg: Config, s: State, id: nat, first: FetchIo, second: FetchIo)
    requires SetsOk(s) && id in s.calls && s.calls[id].pc.Started?
    ensures var v := ValidateTrimmed(checks, cfg, s.cache, s.calls[id].token, s.now, first, second);
            Settles(checks, cfg, s, id, CallSteps(id, first, second), v.0, v.1)
  {
    var e := Ensure(cfg, s.cache, s.now, first);
    if e.ok {
      StartedGoesOn(checks, cfg, s, id, first, second, e);
    } else {
      StartedFails(checks, cfg, s, id, first, second);
    }
  }

  lemma BlankRun(checks: Checks, cfg: Config, s: State, id: nat, token: string, steps: seq<Choice>)
    requires id !in s.calls && TrimSpace(token) == "" && AllOwn(steps, id)
    ensures Settles(checks, cfg, s, id, [Arrive(id, token)] + steps, None, s.cache)
  {
    NextStep(checks, cfg, s, Arrive(id, token), steps);
    RefusedStays(checks, cfg, Do(checks, cfg, s, Arrive(id, token)), id, steps);
  }

  lemma ArrivedRun(checks: Checks, cfg: Config, s: State, id: nat, token: string, first: FetchIo, second: FetchIo)
    requires SetsOk(s) && id !in s.calls && TrimSpace(token) != ""
    ensures var v := ValidateTrimmed(checks, cfg, s.cache, TrimSpace(token), s.now, first, second);
            Settles(checks, cfg, s, id, [Arrive(id, token)] + CallSteps(id, first, second), v.0, v.1)
  {
    var t := Do(checks, cfg, s, Arrive(id, token));
    NextStep(checks, cfg, s, Arrive(id, token), CallSteps(id, first, second));
    assert SetsOk(t) && t.cache == s.cache && t.now == s.now;
    StartedRun(checks, cfg, t, id, first, second);
  }

  /** The steps of one call taken one after another, from any state of the
      cache, give the result and the cache that the class's Validate gives. */
  lemma ValidateIsRun(checks: Checks, cfg: Config, s: State, id: nat, token: string, first: FetchIo, second: FetchIo)
    requires SetsOk(s) && id !in s.calls
    ensures var v := ValidateAlone(checks, cfg, s.cache, token, s.now, first, second);
            Settles(checks, cfg, s, id, [Arrive(id, token)] + CallSteps(id, first, second), v.0, v.1)
  {
    if TrimSpace(token) == "" {
      CallStepsOwn(id, first, second);
      BlankRun(checks, cfg, s, id, token, CallSteps(id, first, second));
    } else {
      ArrivedRun(checks, cfg, s, id, token, first, second);
    }
  }

  // ----- key rotation and the forced refresh -----

  /** The keys a request for the document yields. */
  function Published(io: FetchIo): map<string, Key> {
    if io.document.None? then map[] else KeySet(UsableKeys(io.document.value))
  }

  /** A whole call on a fresh cache, told by what the cache and the issuer hold:
      the key cached for the kid decides; without one a sole cached key does,
      whatever the issuer publishes; only otherwise the key the issuer publishes
      for that kid. */
  lemma FreshCallMeaning(checks: Checks, cfg: Config, cache: Cache, token: string, kid: string, now: nat,
                         first: FetchIo, second: FetchIo)
    requires IsFresh(cfg, cache, now) && cache.jwksUri != ""
    requires TrimSpace(token) != "" && checks.kidOf(TrimSpace(token)) == Some(kid)
    ensures var t := TrimSpace(token);
            var (r, after) := ValidateAlone(checks, cfg, cache, token, now, first, second);
            var news := Published(second);
            && (kid in cache.keys ==> r == checks.verdict(t, cache.keys[kid], now) && after == cache)
            && (kid !in cache.keys && |cache.keys| == 1 ==>
                  after == cache && forall k | k in cache.keys :: r == checks.verdict(t, cache.keys[k], now))
            && (kid !in cache.keys && |cache.keys| != 1 ==>
                  && r == (if kid in news then checks.verdict(t, news[kid], now + second.elapsed) else None)
                  && after == if news == map[] then cache.(fetched := None)
                              else Cache(news, Some(now + second.elapsed), cache.jwksUri))
  {
    if kid !in cache.keys && |cache.keys| == 1 {
      SoleKey(cache.keys);
    }
  }

  /** The JWKS requests of a whole call on a fresh cache: one, exactly when its
      kid is unknown and the cache does not hold a single key. */
  lemma RefreshForcedIff(checks: Checks, cfg: Config, s: State, id: nat, token: string, kid: string,
                         first: FetchIo, second: FetchIo)
    requires SetsOk(s) && id !in s.calls && IsFresh(cfg, s.cache, s.now)
    requires TrimSpace(token) != "" && checks.kidOf(TrimSpace(token)) == Some(kid)
    ensures var t := Run(checks, cfg, s, [Arrive(id, token)] + CallSteps(id, first, second));
            && id in t.calls
            && t.calls[id].requests == if kid in s.cache.keys || |s.cache.keys| == 1 then 0 else 1
  {
    var arrived := Do(checks, cfg, s, Arrive(id, token));
    var holding := EnsureStep(cfg, arrived, id, first);
    var looked := LookupStep(checks, holding, id, false);
    NextStep(checks, cfg, s, Arrive(id, token), CallSteps(id, first, second));
    NextStep(checks, cfg, arrived, EnsureKeys(id, first), [Lookup(id)] + RefreshSteps(id, second));
    NextStep(checks, cfg, holding, Lookup(id), RefreshSteps(id, second));
    assert holding.cache == s.cache && holding.calls[id].pc == Holding && holding.calls[id].requests == 0;
    if kid in s.cache.keys || |s.cache.keys| == 1 {
      FoundRequests(checks, cfg, looked, id, second);
    } else {
      RefreshRequests(checks, cfg, looked, id, second);
    }
  }

  lemma FoundRequests(checks: Checks, cfg: Config, s: State, id: nat, io: FetchIo)
    requires id in s.calls && s.calls[id].pc.Verifying?
    ensures var t := Run(checks, cfg, s, RefreshSteps(id, io));
            id in t.calls && t.calls[id].requests == s.calls[id].requests
  {
    NextStep(checks, cfg, s, Invalidate(id), [EnsureKeys(id, io)] + ([LookupAgain(id)] + [Verify(id)]));
    NextStep(checks, cfg, s, EnsureKeys(id, io), [LookupAgain(id)] + [Verify(id)]);
    LastRequests(checks, cfg, s, id);
  }

  lemma RefreshRequests(checks: Checks, cfg: Config, s: State, id: nat, io: FetchIo)
    requires id in s.calls && s.calls[id].pc.Missed? && s.cache.jwksUri != ""
    ensures var t := Run(checks, cfg, s, RefreshSteps(id, io));
            id in t.calls && t.calls[id].requests == s.calls[id].requests + 1
  {
    var s1 := Do(checks, cfg, s, Invalidate(id));
    var s2 := EnsureStep(cfg, s1, id, io);
    NextStep(checks, cfg, s, Invalidate(id), [EnsureKeys(id, io)] + ([LookupAgain(id)] + [Verify(id)]));
    NextStep(checks, cfg, s1, EnsureKeys(id, io), [LookupAgain(id)] + [Verify(id)]);
    assert s2.calls[id].requests == s.calls[id].requests + 1;
    LastRequests(checks, cfg, s2, id);
  }

  lemma LastRequests(checks: Checks, cfg: Config, s: State, id: nat)
    requires id in s.calls
    ensures var t := Run(checks, cfg, s, [LookupAgain(id)] + [Verify(id)]);
            id in t.calls && t.calls[id].requests == s.calls[id].requests
  {
    NextStep(checks, cfg, s, LookupAgain(id), [Verify(id)]);
    assert [Verify(id)] == [Verify(id)] + [];
    NextStep(checks, cfg, LookupStep(checks, s, id, true), Verify(id), []);
  }

  /** The call that loses a fresh cache its freshness: exactly one with an
      unknown kid, on other than one key, whose refetch yields nothing. The keys
      stay where they are. */
  lemma FreshnessLostIff(checks: Checks, cfg: Config, cache: Cache, token: string, now: nat,
                         first: FetchIo, second: FetchIo)
    requires cfg.ttl > 0 && IsFresh(cfg, cache, now) && cache.jwksUri != ""
    ensures var t := TrimSpace(token);
            var kid := checks.kidOf(t);
            var after := ValidateAlone(checks, cfg, cache, token, now, first, second).1;
            && after.keys != map[]
            && (!IsFresh(cfg, after, now)
                <==> && t != "" && kid.Some? && kid.value !in cache.keys && |cache.keys| != 1
                     && Published(second) == map[])
  {
    var t := TrimSpace(token);
    if t != "" && checks.kidOf(t).Some? {
      FreshCallMeaning(checks, cfg, cache, token, checks.kidOf(t).value, now, first, second);
      if |cache.keys| == 1 { SoleKey(cache.keys); }
    }
  }

  /** No fetch in these choices yields a key. */
  ghost predicate IssuerDown(choices: seq<Choice>) {
    forall i | 0 <= i < |choices| && choices[i].EnsureKeys? :: Published(choices[i].io) == map[]
  }

  predicate GotNowhere(s: State, id: nat) {
    id in s.calls ==> s.calls[id].pc.Started? || s.calls[id].pc.Refused?
  }

  lemma DownStep(checks: Checks, cfg: Config, s: State, c: Choice, id: nat)
    requires s.cache.fetched.None? && GotNowhere(s, id)
    requires c.EnsureKeys? ==> Published(c.io) == map[]
    ensures var t := Do(checks, cfg, s, c);
            t.cache.fetched.None? && t.cache.keys == s.cache.keys && GotNowhere(t, id)
  {}

  /** From then on, in every interleaving, no call that arrives gets past its
      first ensureKeys, whatever its token and however young the keys, for as
      long as no fetch succeeds. */
  lemma {:induction false} LostUntilFetched(checks: Checks, cfg: Config, s: State, choices: seq<Choice>, id: nat)
    requires s.cache.fetched.None? && GotNowhere(s, id) && IssuerDown(choices)
    ensures var t := Run(checks, cfg, s, choices);
            t.cache.fetched.None? && t.cache.keys == s.cache.keys && GotNowhere(t, id)
    decreases |choices|
  {
    if choices != [] {
      DownStep(checks, cfg, s, choices[0], id);
      LostUntilFetched(checks, cfg, Do(checks, cfg, s, choices[0]), choices[1..], id);
    }
  }

  /** The keys a call looks in first: the cached ones while they are fresh, else
      those its first request yields, if it has a URI to request them from. */
  function InForce(cfg: Config, cache: Cache, now: nat, io: FetchIo): map<string, Key> {
    if IsFresh(cfg, cache, now) then cache.keys
    else if cache.jwksUri != "" || (io.discovered.Some? && io.discovered.value != "") then Published(io)
    else map[]
  }

  function LookedAt(cfg: Config, cache: Cache, now: nat, io: FetchIo): nat {
    if IsFresh(cfg, cache, now) then now else now + io.elapsed
  }

  /** A first ensureKeys that succeeds leaves a fresh cache of those keys. */
  lemma InForceMeaning(cfg: Config, cache: Cache, now: nat, io: FetchIo)
    requires cfg.ttl > 0 && (IsFresh(cfg, cache, now) ==> cache.jwksUri != "")
    ensures var e := Ensure(cfg, cache, now, io);
            var keys, at := InForce(cfg, cache, now, io), LookedAt(cfg, cache, now, io);
            && (e.ok <==> keys != map[])
            && (!e.ok ==> e.cache.keys == cache.keys)
            && (e.ok ==> e.cache.keys == keys && e.cache.jwksUri != "" && IsFresh(cfg, e.cache, at)
                         && After(now, e, io) == at)
  {}

  /** A whole call on any cache, fresh, stale, zeroed or empty: refused when no
      keys are in force; decided by the key in force for its kid, else by a sole
      key in force, else by the key a second request yields for that kid. */
  lemma CallMeaning(checks: Checks, cfg: Config, cache: Cache, token: string, now: nat,
                    first: FetchIo, second: FetchIo)
    requires cfg.ttl > 0 && (IsFresh(cfg, cache, now) ==> cache.jwksUri != "")
    ensures var t := TrimSpace(token);
            var kid := checks.kidOf(t);
            var keys, at := InForce(cfg, cache, now, first), LookedAt(cfg, cache, now, first);
            var news := Published(second);
            var (r, after) := ValidateAlone(checks, cfg, cache, token, now, first, second);
            if t == "" then r == None && after == cache
            else if keys == map[] then r == None && after.keys == cache.keys
            else if kid.None? then r == None && after.keys == keys
            else if kid.value in keys then r == checks.verdict(t, keys[kid.value], at) && after.keys == keys
            else if |keys| == 1 then
              after.keys == keys && forall k | k in keys :: r == checks.verdict(t, keys[k], at)
            else
              && after.keys == (if news == map[] then keys else news)
              && r == if kid.value in news then checks.verdict(t, news[kid.value], at + second.elapsed) else None
  {
    var t := TrimSpace(token);
    if t != "" {
      InForceMeaning(cfg, cache, now, first);
      var e := Ensure(cfg, cache, now, first);
      if e.ok && checks.kidOf(t).Some? {
        EnsuredCallMeaning(checks, cfg, e.cache, t, checks.kidOf(t).value, LookedAt(cfg, cache, now, first), second);
      }
    }
  }

  lemma EnsuredCallMeaning(checks: Checks, cfg: Config, cache: Cache, t: string, kid: string, at: nat, io: FetchIo)
    requires IsFresh(cfg, cache, at) && cache.jwksUri != "" && checks.kidOf(t) == Some(kid)
    ensures var keys, news := cache.keys, Published(io);
            var (r, after) := ValidateEnsured(checks, cfg, cache, t, at, io);
            if kid in keys then r == checks.verdict(t, keys[kid], at) && after.keys == keys
            else if |keys| == 1 then
              after.keys == keys && forall k | k in keys :: r == checks.verdict(t, keys[k], at)
            else
              && after.keys == (if news == map[] then keys else news)
              && r == if kid in news then checks.verdict(t, news[kid], at + io.elapsed) else None
  {
    if kid !in cache.keys && |cache.keys| == 1 {
      SoleKey(cache.keys);
    }
  }

  /** Rotation behind a sole key: a token that verifies under the key the issuer
      publishes for its kid, and not under the one cached key of another name,
      is refused for as long as that key is fresh; a validator that starts afresh
      accepts it. */
  lemma SoleKeyHidesRotation(checks: Checks, cfg: Config, cache: Cache, token: string, kid: string, now: nat,
                             io: FetchIo, a: Accepted)
    requires cfg.ttl > 0 && IsFresh(cfg, cache, now) && cache.jwksUri != "" && |cache.keys| == 1 && kid !in cache.keys
    requires TrimSpace(token) != "" && checks.kidOf(TrimSpace(token)) == Some(kid)
    requires forall k | k in cache.keys :: checks.verdict(TrimSpace(token), cache.keys[k], now).None?
    requires io.discovered.Some? && io.discovered.value != "" && kid in Published(io)
    requires checks.verdict(TrimSpace(token), Published(io)[kid], now + io.elapsed) == Some(a)
    ensures ValidateAlone(checks, cfg, cache, token, now, io, io) == (None, cache)
    ensures ValidateAlone(checks, cfg, EMPTY, token, now, io, io).0 == Some(a)
  {
    CallMeaning(checks, cfg, EMPTY, token, now, io, io);
    FreshCallMeaning(checks, cfg, cache, token, kid, now, io, io);
    SoleKey(cache.keys);
  }

  const NEW_KEY := Key(3, 3)

  /** An issuer that publishes one key, under the kid "new". */
  function Rotated(): FetchIo {
    FetchIo(Some("jwks"), Some([Jwk("RSA", "new", "Aw", "Aw")]), 0)
  }

  lemma RotatedPublishes()
    ensures Published(Rotated()) == map["new" := NEW_KEY]
  {
    var jwk := Jwk("RSA", "new", "Aw", "Aw");
    SmallKey(jwk);
    assert [jwk][..0] == [] && [] + [("new", NEW_KEY)] == [("new", NEW_KEY)];
    KeySetAppend([], "new", NEW_KEY);
  }

  lemma SmallKey(k: Jwk)
    requires k.n == "Aw" && k.e == "Aw"
    ensures ToKey(k) == Some(NEW_KEY)
  {
    var b: Bytes := [3];
    assert Encode(RAW_URL, b) == "Aw";
    RoundTrip(RAW_URL, b);
    assert b[..0] == [] && BigEndian(b) == 3;
    WrapFits(3);
  }

  /** A token made of one part three times, which decodes to the byte 0. */
  predicate OneByteToken(token: string, part: string) {
    && token == part + "." + part + "." + part && '.' !in part && TrimSpace(token) == token
    && Decode(RAW_URL, part) == Some([0])
  }

  lemma SuchToken() returns (token: string, part: string)
    ensures token == "AA.AA.AA" && OneByteToken(token, part)
  {
    token, part := "AA.AA.AA", "AA";
    var b: Bytes := [0];
    assert Encode(RAW_URL, b) == part;
    RoundTrip(RAW_URL, b);
    TrimFixedIff(token);
    assert part + "." + part + "." + part == token;
  }

  /** Under these libraries such a token names the key "new", carries the
      configured issuer and audience, never expires, and verifies under the new
      key alone. */
  ghost predicate SignedByNew(lib: Library, cfg: Config) {
    && lib.parseHeader([0]) == Some(Header("new", "RS256"))
    && lib.parseClaims([0]) == Some(Claims(JString(cfg.issuer), JString(cfg.audience), JOther, JOther, JOther))
    && forall key, text :: lib.verifies(key, text, [0]) <==> key == NEW_KEY
  }

  lemma SuchLibrary(cfg: Config) returns (lib: Library)
    ensures SignedByNew(lib, cfg)
  {
    lib := Library(_ => Some(Header("new", "RS256")),
                   _ => Some(Claims(JString(cfg.issuer), JString(cfg.audience), JOther, JOther, JOther)),
                   (key, _, _) => key == NEW_KEY);
  }

  lemma TokenParts(token: string, part: string)
    requires OneByteToken(token, part)
    ensures Split(token, '.') == [part, part, part]
  {
    JoinThree(part, part, part);
    SplitJoin([part, part, part], '.');
  }

  lemma TokenKid(lib: Library, cfg: Config, token: string, part: string)
    requires SignedByNew(lib, cfg) && OneByteToken(token, part)
    ensures KidOf(lib, token) == Some("new")
  {
    TokenParts(token, part);
  }

  /** The verdict on claims that are in order hangs on the signature. */
  lemma SignatureDecides(lib: Library, cfg: Config, token: string, p: string, q: string, r: string,
                         payload: Bytes, sig: Bytes, key: Key, now: nat)
    requires Split(token, '.') == [p, q, r] && '.' !in p
    requires Decode(RAW_URL, q) == Some(payload) && Decode(RAW_URL, r) == Some(sig)
    requires lib.parseClaims(payload).Some?
    requires var c := lib.parseClaims(payload).value;
             && TrimRightSlashes(AsString(c.iss)) == cfg.issuer && !c.exp.JNumber?
             && (cfg.audience == "" || AudienceOk(c.aud, cfg.audience))
    ensures Verdict(lib, cfg, token, key, now).Some? <==> lib.verifies(key, p + "." + q, sig)
  {
    MiddlePart(p, q);
  }

  lemma TokenVerdict(lib: Library, cfg: Config, token: string, part: string, key: Key, now: nat)
    requires SignedByNew(lib, cfg) && TrimRightSlashes(cfg.issuer) == cfg.issuer && OneByteToken(token, part)
    ensures Verdict(lib, cfg, token, key, now).Some? <==> key == NEW_KEY
  {
    TokenParts(token, part);
    SignatureDecides(lib, cfg, token, part, part, part, [0], [0], key, now);
  }

  lemma TokenMissed(lib: Library, cfg: Config, token: string, part: string, cache: Cache, stale: Key, io: FetchIo)
    requires SignedByNew(lib, cfg) && TrimRightSlashes(cfg.issuer) == cfg.issuer && OneByteToken(token, part)
    requires cfg.ttl > 0 && stale != NEW_KEY && IsFresh(cfg, cache, 0) && cache.jwksUri != ""
    requires cache.keys == map["old" := stale]
    requires io.discovered.Some? && io.discovered.value != "" && Published(io) == map["new" := NEW_KEY]
    ensures ValidateAlone(ChecksOf(lib, cfg), cfg, cache, token, 0, io, io) == (None, cache)
    ensures ValidateAlone(ChecksOf(lib, cfg), cfg, EMPTY, token, 0, io, io).0.Some?
  {
    TokenKid(lib, cfg, token, part);
    TokenVerdict(lib, cfg, token, part, stale, 0);
    TokenVerdict(lib, cfg, token, part, NEW_KEY, io.elapsed);
    assert |cache.keys| == 1;
    assert token != "";
    SoleKeyHidesRotation(ChecksOf(lib, cfg), cfg, cache, token, "new", 0, io,
                         Verdict(lib, cfg, token, NEW_KEY, io.elapsed).value);
  }

  /** An issuer, a token and libraries for which it happens, with the checks that
      Validate makes and an issuer name as NewOIDC leaves it: refused while the
      old key is cached alone, accepted on an empty cache. */
  lemma RotationMissed(cfg: Config, stale: Key) returns (lib: Library, token: string)
    requires cfg.ttl > 0 && stale != NEW_KEY && TrimRightSlashes(cfg.issuer) == cfg.issuer
    ensures token == "AA.AA.AA" && Published(Rotated()) == map["new" := NEW_KEY]
    ensures var cache := Cache(map["old" := stale], Some(0), "jwks");
            && ValidateAlone(ChecksOf(lib, cfg), cfg, cache, token, 0, Rotated(), Rotated()) == (None, cache)
            && ValidateAlone(ChecksOf(lib, cfg), cfg, EMPTY, token, 0, Rotated(), Rotated()).0.Some?
  {
    var part;
    lib := SuchLibrary(cfg);
    token, part := SuchToken();
    RotatedPublishes();
    TokenMissed(lib, cfg, token, part, Cache(map["old" := stale], Some(0), "jwks"), stale, Rotated());
  }
}
