/** Writing a provider's credentials as a run of the store: one operation after
    another, up to the first that fails (secrets/local.go). */
module ProviderRuns {
  import opened Strings
  import opened Base64
  import opened Crypto
  import opened SecretSpec
  import opened Providers
  import opened SecretRuns

  /** The choices that the puts of these credentials amount to. */
  ghost function PutChoices(lib: Library, key: Bytes, provider: string, creds: map<string, string>,
                            ios: string -> FlushIo, order: seq<string>, start: Progress): seq<Choice>
    requires AllFrom(order, creds)
  {
    if order == [] then []
    else
      var init, c := order[..|order| - 1], order[|order| - 1];
      PutChoices(lib, key, provider, creds, ios, init, start)
      + OneChoices(lib, key, provider, creds, ios, c, PutAll(lib, key, provider, creds, ios, init, start))
  }

  ghost function OneChoices(lib: Library, key: Bytes, provider: string, creds: map<string, string>,
                            ios: string -> FlushIo, c: string, p: Progress): seq<Choice>
    requires c in creds
  {
    if !p.ok || !Usable(c, creds[c]) then []
    else OperationChoices(lib, key, p.data, Put(ProviderKey(provider, TrimSpace(c)), creds[c]), ios(c))
  }

  /** The state t is where a sequence of puts that began in s has got to: its
      cache and files, and every put issued since acknowledged, except a last
      one that failed. */
  ghost predicate AsFar(s: State, t: State, p: Progress) {
    && s.proc.Idle? && t.proc == Idle(s.proc.key, p.data) && t.files == p.files
    && s.issued <= t.issued
    && (!p.ok ==> |s.issued| < |t.issued|)
    && forall i :: i in t.acked <==>
         i in s.acked || |s.issued| <= i < |t.issued| - (if p.ok then 0 else 1)
  }

  lemma OneIsRun(lib: Library, env: string, s: State, t: State, provider: string, creds: map<string, string>,
                 ios: string -> FlushIo, c: string, p: Progress)
    requires c in creds && AsFar(s, t, p) && NonceSized(ios(c).nonces)
    ensures AsFar(s, Run(lib, env, t, OneChoices(lib, s.proc.key, provider, creds, ios, c, p)),
                  PutOne(lib, s.proc.key, provider, creds, ios, c, p))
  {
    if p.ok && Usable(c, creds[c]) {
      var op := Put(ProviderKey(provider, TrimSpace(c)), creds[c]);
      ProviderKeyTrimmed(provider, c);
      assert Accepted(op);
      OperationIsRun(lib, env, t, op, ios(c));
    }
  }

  /** PutProviderCredentials, in whatever order it meets the credentials and
      whichever flushes fail, ends in the state that these choices end in. */
  lemma {:induction false} PutAllIsRun(lib: Library, env: string, s: State, provider: string,
                                       creds: map<string, string>, ios: string -> FlushIo, order: seq<string>)
    requires s.proc.Idle? && AllFrom(order, creds) && forall c | c in order :: NonceSized(ios(c).nonces)
    ensures var start := Progress(true, s.proc.data, s.files);
            AsFar(s, Run(lib, env, s, PutChoices(lib, s.proc.key, provider, creds, ios, order, start)),
                  PutAll(lib, s.proc.key, provider, creds, ios, order, start))
  {
    var start := Progress(true, s.proc.data, s.files);
    if order != [] {
      var init, c := order[..|order| - 1], order[|order| - 1];
      PutAllIsRun(lib, env, s, provider, creds, ios, init);
      var a := PutChoices(lib, s.proc.key, provider, creds, ios, init, start);
      var p := PutAll(lib, s.proc.key, provider, creds, ios, init, start);
      RunConcat(lib, env, s, a, OneChoices(lib, s.proc.key, provider, creds, ios, c, p));
      OneIsRun(lib, env, s, Run(lib, env, s, a), provider, creds, ios, c, p);
    }
  }
}
