/** The requests on one SSH session channel (section 6 of RFC 4254): what each
    is answered, which one starts the child, and what the child is started
    with (sshserver/server.go). */
module SshSession {
  import opened Wrappers
  import opened Strings
  import opened Environment

  datatype Config = Config(shell: string, initPath: string, env: seq<string>)

  datatype Pty = Pty(term: string, rows: nat, cols: nat)

  /** A request by type; parsed is None when its payload does not unmarshal. */
  datatype Kind =
    | PtyReq(pty: Option<Pty>)
    | EnvReq(pair: Option<(string, string)>)
    | Shell
    | Exec(command: Option<string>)
    | WindowChange(size: Option<(nat, nat)>)
    | Signal(name: Option<string>)
    | Other(kind: string)

  /** A request with the outcomes of the system calls its handling may make:
      whether startProcess succeeds and whether the init binary exists. */
  datatype Request = Request(kind: Kind, wantReply: bool, starts: bool, initExists: bool)

  datatype Child = Child(argv: seq<string>, env: seq<string>, pty: Option<Pty>)

  /** What reached the child after its start. */
  datatype Control = Resized(rows: nat, cols: nat) | Signalled(name: string)

  datatype State = State(env: seq<string>, pty: Option<Pty>, child: Option<Child>,
                         replies: seq<bool>, controls: seq<Control>)

  // ----- argv and environment -----

  function LowerChar(c: char): char {
    if 'A' <= c <= 'Z' then (c as int + 32) as char else c
  }

  /** strings.ToLower, as far as comparing with ASCII words can tell. */
  function ToLower(s: string): string {
    seq(|s|, i requires 0 <= i < |s| => LowerChar(s[i]))
  }

  predicate Truthy(v: string) {
    ToLower(TrimSpace(v)) in {"1", "true", "yes"}
  }

  /** t spells w, in small or capital letters. */
  predicate SpellsWord(t: string, w: string) {
    |t| == |w| && forall i | 0 <= i < |w| ::
      t[i] == w[i] || ('A' <= t[i] <= 'Z' && t[i] as int + 32 == w[i] as int)
  }

  lemma LowerSpells(t: string, w: string)
    requires forall i | 0 <= i < |w| :: !('A' <= w[i] <= 'Z')
    ensures ToLower(t) == w <==> SpellsWord(t, w)
  {
    if SpellsWord(t, w) {
      assert ToLower(t) == w;
    }
    if ToLower(t) == w {
      forall i | 0 <= i < |w|
        ensures t[i] == w[i] || ('A' <= t[i] <= 'Z' && t[i] as int + 32 == w[i] as int)
      {
        assert ToLower(t)[i] == LowerChar(t[i]);
      }
    }
  }

  /** Trimmed, the value is 1, true or yes in any case. */
  predicate SaysYes(v: string) {
    var t := TrimSpace(v);
    SpellsWord(t, "1") || SpellsWord(t, "true") || SpellsWord(t, "yes")
  }

  lemma TruthyMeaning(v: string)
    ensures Truthy(v) <==> SaysYes(v)
  {
    LowerSpells(TrimSpace(v), "1");
    LowerSpells(TrimSpace(v), "true");
    LowerSpells(TrimSpace(v), "yes");
  }

  /** The name part of strings.Cut(e, "="): all of e when there is no '='. */
  function CutName(e: string): string {
    e[..IndexOf(e, '=')]
  }

  function CutValue(e: string): string {
    var i := IndexOf(e, '=');
    if i == |e| then "" else e[i + 1..]
  }

  /** The first entry for the switch decides. */
  function NoLogin(env: seq<string>): bool {
    if env == [] then false
    else if CutName(env[0]) == NO_LOGIN_SHELL then Truthy(CutValue(env[0]))
    else NoLogin(env[1..])
  }

  method ScanNoLogin(env: seq<string>) returns (b: bool)
    ensures b == NoLogin(env)
  {
    for i := 0 to |env|
      invariant NoLogin(env) == NoLogin(env[i..])
    {
      var cut := IndexOf(env[i], '=');
      if env[i][..cut] == NO_LOGIN_SHELL {
        var v := ToLower(TrimSpace(if cut == |env[i]| then "" else env[i][cut + 1..]));
        return v == "1" || v == "true" || v == "yes";
      }
    }
    return false;
  }

  function ChildArgv(cfg: Config, env: seq<string>, command: string, initExists: bool): seq<string> {
    var argv :=
      if command == "" then [cfg.shell, "-l"]
      else if NoLogin(env) then [cfg.shell, "-c", command]
      else [cfg.shell, "-lc", command];
    if cfg.initPath != "" && initExists then [cfg.initPath, "--"] + argv else argv
  }

  function TermEntries(pty: Option<Pty>): seq<string> {
    if pty.Some? && pty.value.term != "" then ["TERM=" + pty.value.term] else []
  }

  /** childEnv merges twice; it amounts to one last-wins pass over the base,
      the terminal's TERM and the client's entries. */
  method ChildEnv(cfg: Config, pty: Option<Pty>, clientEnv: seq<string>) returns (env: seq<string>)
    ensures env == Merged(cfg.env + (TermEntries(pty) + clientEnv))
  {
    env := cfg.env;
    if pty.Some? && pty.value.term != "" {
      env := MergeEnv(env, ["TERM=" + pty.value.term]);
      TwoStagesAreOne(cfg.env, TermEntries(pty), clientEnv);
    } else {
      assert TermEntries(pty) + clientEnv == clientEnv;
    }
    env := MergeEnv(env, clientEnv);
  }

  // ----- one request -----

  function Reply(s: State, r: Request, ok: bool): State {
    if r.wantReply then s.(replies := s.replies + [ok]) else s
  }

  function MakeChild(cfg: Config, env: seq<string>, pty: Option<Pty>, command: string, initExists: bool): Child {
    Child(ChildArgv(cfg, env, command, initExists), Merged(cfg.env + (TermEntries(pty) + env)), pty)
  }

  function StartChild(cfg: Config, s: State, r: Request, command: string): State {
    if s.child.Some? || !r.starts then Reply(s, r, false)
    else
      Reply(s.(child := Some(MakeChild(cfg, s.env, s.pty, command, r.initExists))), r, true)
  }

  function Step(cfg: Config, s: State, r: Request): State {
    match r.kind
    case PtyReq(pty) => if pty.None? then Reply(s, r, false) else Reply(s.(pty := pty), r, true)
    case EnvReq(pair) =>
      if pair.None? || !EnvAllowed(pair.value.0) then Reply(s, r, false)
      else Reply(s.(env := s.env + [pair.value.0 + "=" + pair.value.1]), r, true)
    case Shell => StartChild(cfg, s, r, "")
    case Exec(command) => if command.None? then Reply(s, r, false) else StartChild(cfg, s, r, command.value)
    case WindowChange(size) =>
      Reply(if size.Some? && s.child.Some?
            then s.(controls := s.controls + [Resized(size.value.0, size.value.1)]) else s, r, true)
    case Signal(name) =>
      Reply(if name.Some? && s.child.Some?
            then s.(controls := s.controls + [Signalled(name.value)]) else s, r, true)
    case Other(_) => Reply(s, r, false)
  }

  const FRESH := State([], None, None, [], [])

  function Run(cfg: Config, rs: seq<Request>): State {
    if rs == [] then FRESH else Step(cfg, Run(cfg, rs[..|rs| - 1]), rs[|rs| - 1])
  }

  /** The session struct, updated in place by handle and start. */
  class Session {
    const cfg: Config
    var env: seq<string>
    var pty: Option<Pty>
    var proc: Option<Child>
    var replies: seq<bool>
    var controls: seq<Control>

    ghost function Value(): State
      reads this
    {
      State(env, pty, proc, replies, controls)
    }

    constructor (cfg: Config)
      ensures this.cfg == cfg && Value() == FRESH
    {
      this.cfg := cfg;
      env, pty, proc, replies, controls := [], None, None, [], [];
    }

    method SendReply(r: Request, ok: bool)
      modifies this`replies
      ensures Value() == Reply(old(Value()), r, ok)
    {
      if r.wantReply {
        replies := replies + [ok];
      }
    }

    method Start(r: Request, command: string)
      modifies this
      ensures Value() == StartChild(cfg, old(Value()), r, command)
    {
      if proc.Some? {
        SendReply(r, false);
        return;
      }
      var noLogin := ScanNoLogin(env);
      var argv :=
        if command == "" then [cfg.shell, "-l"]
        else if noLogin then [cfg.shell, "-c", command]
        else [cfg.shell, "-lc", command];
      if cfg.initPath != "" && r.initExists {
        argv := [cfg.initPath, "--"] + argv;
      }
      var childEnv := ChildEnv(cfg, pty, env);
      if !r.starts {
        SendReply(r, false);
        return;
      }
      proc := Some(Child(argv, childEnv, pty));
      SendReply(r, true);
    }

    method Handle(r: Request)
      modifies this
      ensures Value() == Step(cfg, old(Value()), r)
    {
      match r.kind {
        case PtyReq(p) =>
          if p.Some? {
            pty := p;
          }
          SendReply(r, p.Some?);
        case EnvReq(pair) =>
          if pair.None? || !EnvAllowed(pair.value.0) {
            SendReply(r, false);
            return;
          }
          env := env + [pair.value.0 + "=" + pair.value.1];
          SendReply(r, true);
        case Shell =>
          Start(r, "");
        case Exec(command) =>
          if command.None? {
            SendReply(r, false);
            return;
          }
          Start(r, command.value);
        case WindowChange(size) =>
          if size.Some? && proc.Some? {
            controls := controls + [Resized(size.value.0, size.value.1)];
          }
          SendReply(r, true);
        case Signal(name) =>
          if name.Some? && proc.Some? {
            controls := controls + [Signalled(name.value)];
          }
          SendReply(r, true);
        case Other(_) =>
          SendReply(r, false);
      }
    }

    /** The request loop of handleSession. */
    method Serve(rs: seq<Request>)
      requires Value() == FRESH
      modifies this
      ensures Value() == Run(cfg, rs)
    {
      for i := 0 to |rs|
        invariant Value() == Run(cfg, rs[..i])
      {
        assert rs[..i + 1][..i] == rs[..i];
        Handle(rs[i]);
      }
      assert rs[..|rs|] == rs;
    }
  }

  // ----- the same, told from the requests alone -----

  /** The entries of the accepted env requests, in order. */
  function AcceptedEnv(rs: seq<Request>): seq<string> {
    if rs == [] then []
    else
      var before, k := AcceptedEnv(rs[..|rs| - 1]), rs[|rs| - 1].kind;
      if k.EnvReq? && k.pair.Some? && EnvAllowed(k.pair.value.0)
      then before + [k.pair.value.0 + "=" + k.pair.value.1] else before
  }

  function LastPty(rs: seq<Request>): Option<Pty> {
    if rs == [] then None
    else
      var k := rs[|rs| - 1].kind;
      if k.PtyReq? && k.pty.Some? then k.pty else LastPty(rs[..|rs| - 1])
  }

  /** A shell or well-formed exec request whose process would start. */
  predicate CanStart(r: Request) {
    (r.kind.Shell? || (r.kind.Exec? && r.kind.command.Some?)) && r.starts
  }

  /** The first request that can start the child, or the number of requests. */
  function FirstStart(rs: seq<Request>): (i: nat)
    ensures i <= |rs|
    ensures forall j | 0 <= j < i :: !CanStart(rs[j])
    ensures i < |rs| ==> CanStart(rs[i])
  {
    if rs == [] then 0
    else
      var i := FirstStart(rs[..|rs| - 1]);
      if i < |rs| - 1 || CanStart(rs[|rs| - 1]) then i else |rs|
  }

  function CommandOf(r: Request): string
    requires CanStart(r)
  {
    if r.kind.Shell? then "" else r.kind.command.value
  }

  /** The child that request i starts: made from the requests before it only. */
  function ChildAt(cfg: Config, rs: seq<Request>, i: nat): Child
    requires i < |rs| && CanStart(rs[i])
  {
    MakeChild(cfg, AcceptedEnv(rs[..i]), LastPty(rs[..i]), CommandOf(rs[i]), rs[i].initExists)
  }

  /** Which requests are granted: at most one shell or exec, the first that can
      start; a failed start does not use up the chance. */
  predicate Granted(rs: seq<Request>, i: nat)
    requires i < |rs|
  {
    match rs[i].kind
    case PtyReq(pty) => pty.Some?
    case EnvReq(pair) => pair.Some? && EnvAllowed(pair.value.0)
    case Shell => i == FirstStart(rs)
    case Exec(_) => i == FirstStart(rs)
    case WindowChange(_) => true
    case Signal(_) => true
    case Other(_) => false
  }

  /** The answers owed: one per request that wants a reply, in order. */
  function Answers(rs: seq<Request>, n: nat): seq<bool>
    requires n <= |rs|
  {
    if n == 0 then []
    else Answers(rs, n - 1) + (if rs[n - 1].wantReply then [Granted(rs, n - 1)] else [])
  }

  lemma {:induction false} AnswersOfPrefix(rs: seq<Request>, n: nat)
    requires n < |rs|
    ensures Answers(rs[..|rs| - 1], n) == Answers(rs, n)
  {
    if n > 0 {
      AnswersOfPrefix(rs, n - 1);
      assert rs[..|rs| - 1][n - 1] == rs[n - 1];
    }
  }

  lemma {:induction false} RunSettings(cfg: Config, rs: seq<Request>)
    ensures Run(cfg, rs).env == AcceptedEnv(rs) && Run(cfg, rs).pty == LastPty(rs)
  {
    if rs != [] {
      RunSettings(cfg, rs[..|rs| - 1]);
    }
  }

  /** The child of a run: the one its first startable request describes. */
  function ChildOf(cfg: Config, rs: seq<Request>): Option<Child> {
    var i := FirstStart(rs);
    if i == |rs| then None else Some(ChildAt(cfg, rs, i))
  }

  lemma ChildOfPrefix(cfg: Config, rs: seq<Request>)
    requires rs != []
    ensures var init, last := rs[..|rs| - 1], rs[|rs| - 1];
            ChildOf(cfg, rs) ==
            if ChildOf(cfg, init).Some? then ChildOf(cfg, init)
            else if CanStart(last) then Some(ChildAt(cfg, rs, |init|)) else None
  {
    var init := rs[..|rs| - 1];
    var i := FirstStart(init);
    if i < |init| {
      assert rs[..i] == init[..i] && rs[i] == init[i];
    }
  }

  lemma StepChild(cfg: Config, s: State, r: Request)
    ensures Step(cfg, s, r).child ==
            if s.child.Some? then s.child
            else if CanStart(r) then Some(MakeChild(cfg, s.env, s.pty, CommandOf(r), r.initExists)) else None
  {}

  lemma StepReplies(cfg: Config, s: State, r: Request)
    ensures Step(cfg, s, r).replies == s.replies + (if r.wantReply then [StepGrants(s, r)] else [])
  {}

  lemma {:induction false} RunChild(cfg: Config, rs: seq<Request>)
    ensures Run(cfg, rs).child == ChildOf(cfg, rs)
  {
    if rs != [] {
      var init, s := rs[..|rs| - 1], Run(cfg, rs[..|rs| - 1]);
      RunChild(cfg, init);
      RunSettings(cfg, init);
      ChildOfPrefix(cfg, rs);
      ChildGrows(cfg, s, rs);
    }
  }

  lemma ChildGrows(cfg: Config, s: State, rs: seq<Request>)
    requires rs != []
    requires var init := rs[..|rs| - 1];
             s.child == ChildOf(cfg, init) && s.env == AcceptedEnv(init) && s.pty == LastPty(init)
    ensures var last := rs[|rs| - 1];
            Step(cfg, s, last).child ==
            if s.child.Some? then s.child
            else if CanStart(last) then Some(ChildAt(cfg, rs, |rs| - 1)) else None
  {
    StepChild(cfg, s, rs[|rs| - 1]);
  }

  lemma GrantedByStep(cfg: Config, rs: seq<Request>)
    requires rs != [] && Run(cfg, rs[..|rs| - 1]).child == ChildOf(cfg, rs[..|rs| - 1])
    ensures Granted(rs, |rs| - 1) <==> StepGrants(Run(cfg, rs[..|rs| - 1]), rs[|rs| - 1])
  {
    assert FirstStart(rs) == |rs| - 1 <==> CanStart(rs[|rs| - 1]) && FirstStart(rs[..|rs| - 1]) == |rs| - 1;
  }

  lemma {:induction false} RunReplies(cfg: Config, rs: seq<Request>)
    ensures Run(cfg, rs).replies == Answers(rs, |rs|)
  {
    if rs != [] {
      var init := rs[..|rs| - 1];
      RunReplies(cfg, init);
      RunChild(cfg, init);
      StepReplies(cfg, Run(cfg, init), rs[|init|]);
      AnswersOfPrefix(rs, |init|);
      GrantedByStep(cfg, rs);
    }
  }

  predicate StepGrants(s: State, r: Request) {
    match r.kind
    case PtyReq(pty) => pty.Some?
    case EnvReq(pair) => pair.Some? && EnvAllowed(pair.value.0)
    case Shell => CanStart(r) && s.child.None?
    case Exec(_) => CanStart(r) && s.child.None?
    case WindowChange(_) => true
    case Signal(_) => true
    case Other(_) => false
  }

  /** What reaches the child: the well-formed resizes and signals after its start. */
  function ControlOf(r: Request): seq<Control> {
    match r.kind
    case WindowChange(size) => if size.Some? then [Resized(size.value.0, size.value.1)] else []
    case Signal(name) => if name.Some? then [Signalled(name.value)] else []
    case _ => []
  }

  function Controls(rs: seq<Request>, n: nat): seq<Control>
    requires n <= |rs|
  {
    if n == 0 then []
    else Controls(rs, n - 1) + (if FirstStart(rs) < n - 1 then ControlOf(rs[n - 1]) else [])
  }

  lemma {:induction false} ControlsOfPrefix(rs: seq<Request>, n: nat)
    requires n < |rs|
    ensures Controls(rs[..|rs| - 1], n) == Controls(rs, n)
  {
    if n > 0 {
      ControlsOfPrefix(rs, n - 1);
      assert rs[..|rs| - 1][n - 1] == rs[n - 1];
    }
  }

  lemma StepControls(cfg: Config, s: State, r: Request)
    ensures Step(cfg, s, r).controls == s.controls + (if s.child.Some? then ControlOf(r) else [])
  {}

  lemma {:induction false} RunControls(cfg: Config, rs: seq<Request>)
    ensures Run(cfg, rs).controls == Controls(rs, |rs|)
  {
    if rs != [] {
      var init := rs[..|rs| - 1];
      RunControls(cfg, init);
      RunChild(cfg, init);
      StepControls(cfg, Run(cfg, init), rs[|init|]);
      ControlsOfPrefix(rs, |init|);
    }
  }

  /** Every run, whatever its requests: the replies sent are the answers owed,
      the child is the one the first startable request describes, and it gets
      the resizes and signals that follow its start. */
  lemma RunMeaning(cfg: Config, rs: seq<Request>)
    ensures var s := Run(cfg, rs);
            && s.env == AcceptedEnv(rs) && s.pty == LastPty(rs)
            && s.replies == Answers(rs, |rs|)
            && s.child == ChildOf(cfg, rs)
            && s.controls == Controls(rs, |rs|)
  {
    RunControls(cfg, rs);
    RunSettings(cfg, rs);
    RunReplies(cfg, rs);
    RunChild(cfg, rs);
  }

  /** Requests after the start, and refused ones before it, change nothing about
      the child: equal accepted settings before equal starts give equal children. */
  lemma ChildDependsOnAcceptedOnly(cfg: Config, rs: seq<Request>, rs': seq<Request>)
    requires FirstStart(rs) < |rs| && FirstStart(rs') < |rs'|
    requires rs[FirstStart(rs)] == rs'[FirstStart(rs')]
    requires AcceptedEnv(rs[..FirstStart(rs)]) == AcceptedEnv(rs'[..FirstStart(rs')])
    requires LastPty(rs[..FirstStart(rs)]) == LastPty(rs'[..FirstStart(rs')])
    ensures Run(cfg, rs).child == Run(cfg, rs').child
  {
    RunMeaning(cfg, rs);
    RunMeaning(cfg, rs');
  }

  lemma {:induction false} AcceptedEnvAllowed(rs: seq<Request>)
    ensures SetsAllowedOnly(AcceptedEnv(rs))
  {
    if rs != [] {
      AcceptedEnvAllowed(rs[..|rs| - 1]);
      var k := rs[|rs| - 1].kind;
      if k.EnvReq? && k.pair.Some? && EnvAllowed(k.pair.value.0) {
        AcceptedEntrySetsAllowedName(k.pair.value.0, k.pair.value.1);
      }
    }
  }

  lemma TermEntriesAllowed(pty: Option<Pty>)
    ensures SetsAllowedOnly(TermEntries(pty))
  {
    if pty.Some? && pty.value.term != "" {
      var e := "TERM=" + pty.value.term;
      IndexOfUnique(e, '=', 4);
      assert e[..4] == "TERM";
    }
  }

  /** No sequence of requests changes, in the child, a name that is neither
      allowlisted nor LC_*: it has what the base environment gives it. */
  lemma ProtectedNamesUntouched(cfg: Config, rs: seq<Request>, name: string)
    requires !ClientMaySet(name)
    ensures var child := Run(cfg, rs).child;
            child.Some? ==> LastEntry(child.value.env, name) == LastEntry(cfg.env, name)
  {
    RunMeaning(cfg, rs);
    AllowedMeaning(name);
    var i := FirstStart(rs);
    if i < |rs| {
      AcceptedEnvAllowed(rs[..i]);
      TermEntriesAllowed(LastPty(rs[..i]));
      OtherNamesUntouched(cfg.env, TermEntries(LastPty(rs[..i])) + AcceptedEnv(rs[..i]), name);
    }
  }

  // ----- what a child is started with -----

  /** Every name of the child's environment: the client's last accepted entry
      for it, else the terminal's TERM, else what the base environment gives. */
  lemma ChildEnvMeaning(cfg: Config, rs: seq<Request>, name: string)
    requires FirstStart(rs) < |rs|
    ensures var child := Run(cfg, rs).child;
            var sent := AcceptedEnv(rs[..FirstStart(rs)]);
            var pty := LastPty(rs[..FirstStart(rs)]);
            && child.Some? && child.value.pty == pty
            && LastEntry(child.value.env, name) ==
               if LastEntry(sent, name).Some? then LastEntry(sent, name)
               else if name == "TERM" && pty.Some? && pty.value.term != "" then Some("TERM=" + pty.value.term)
               else LastEntry(cfg.env, name)
  {
    RunChild(cfg, rs);
    var sent, pty := AcceptedEnv(rs[..FirstStart(rs)]), LastPty(rs[..FirstStart(rs)]);
    LayeredEntry(cfg.env, TermEntries(pty), sent, name);
    TermEntryMeaning(pty, name);
  }

  lemma LayeredEntry(base: seq<string>, term: seq<string>, sent: seq<string>, name: string)
    ensures LastEntry(Merged(base + (term + sent)), name) ==
            if LastEntry(sent, name).Some? then LastEntry(sent, name)
            else if LastEntry(term, name).Some? then LastEntry(term, name) else LastEntry(base, name)
  {
    MergedKeepsMeaning(base + (term + sent));
    LastEntryConcat(base, term + sent, name);
    LastEntryConcat(term, sent, name);
  }

  lemma TermEntryMeaning(pty: Option<Pty>, name: string)
    ensures LastEntry(TermEntries(pty), name) ==
            if name == "TERM" && pty.Some? && pty.value.term != "" then Some("TERM=" + pty.value.term) else None
  {
    if pty.Some? && pty.value.term != "" {
      var e := "TERM=" + pty.value.term;
      assert e == "TERM" + "=" + pty.value.term;
      KeyMeaning(e, "TERM");
      OneEntry(e, name);
    }
  }

  lemma OneEntry(e: string, name: string)
    ensures LastEntry([e], name) == if KeyOf(e) == Some(name) then Some(e) else None
  {}

  /** A request to set this very name. */
  predicate Sets(r: Request, name: string) {
    r.kind.EnvReq? && r.kind.pair.Some? && CutName(r.kind.pair.value.0) == name
  }

  /** The last value a client sends for an allowed name before the start is the
      one its child gets. */
  lemma SentReachesChild(cfg: Config, rs: seq<Request>, j: nat, name: string, value: string)
    requires j < FirstStart(rs) < |rs| && rs[j].kind == EnvReq(Some((name, value)))
    requires ClientMaySet(name) && '=' !in name
    requires forall k | j < k < FirstStart(rs) :: !Sets(rs[k], name)
    ensures Run(cfg, rs).child.Some? && LastEntry(Run(cfg, rs).child.value.env, name) == Some(name + "=" + value)
  {
    var before := rs[..FirstStart(rs)];
    assert forall k | 0 <= k < |before| :: before[k] == rs[k];
    AllowedMeaning(name);
    LastSent(before, j, name, value);
    ChildEnvMeaning(cfg, rs, name);
  }

  lemma {:induction false} LastSent(rs: seq<Request>, j: nat, name: string, value: string)
    requires j < |rs| && rs[j].kind == EnvReq(Some((name, value)))
    requires EnvAllowed(name) && name != "" && '=' !in name
    requires forall k | j < k < |rs| :: !Sets(rs[k], name)
    ensures LastEntry(AcceptedEnv(rs), name) == Some(name + "=" + value)
  {
    var init, last := rs[..|rs| - 1], rs[|rs| - 1];
    if j == |rs| - 1 {
      KeyMeaning(name + "=" + value, name);
    } else {
      assert forall k | 0 <= k < |init| :: init[k] == rs[k];
      LastSent(init, j, name, value);
      if last.kind.EnvReq? && last.kind.pair.Some? {
        OtherName(last.kind.pair.value.0, last.kind.pair.value.1, name);
      }
    }
  }

  /** The last terminal a client asks for before the start is the child's. */
  lemma TerminalReachesChild(cfg: Config, rs: seq<Request>, j: nat, pty: Pty)
    requires j < FirstStart(rs) < |rs| && rs[j].kind == PtyReq(Some(pty))
    requires forall k | j < k < FirstStart(rs) :: !(rs[k].kind.PtyReq? && rs[k].kind.pty.Some?)
    ensures Run(cfg, rs).child.Some? && Run(cfg, rs).child.value.pty == Some(pty)
  {
    var before := rs[..FirstStart(rs)];
    assert forall k | 0 <= k < |before| :: before[k] == rs[k];
    LastAsked(before, j, pty);
    ChildEnvMeaning(cfg, rs, "TERM");
  }

  lemma {:induction false} LastAsked(rs: seq<Request>, j: nat, pty: Pty)
    requires j < |rs| && rs[j].kind == PtyReq(Some(pty))
    requires forall k | j < k < |rs| :: !(rs[k].kind.PtyReq? && rs[k].kind.pty.Some?)
    ensures LastPty(rs) == Some(pty)
  {
    if j < |rs| - 1 {
      assert forall k | 0 <= k < |rs| - 1 :: rs[..|rs| - 1][k] == rs[k];
      LastAsked(rs[..|rs| - 1], j, pty);
    }
  }

  lemma OtherName(sent: string, value: string, name: string)
    requires CutName(sent) != name
    ensures KeyOf(sent + "=" + value) != Some(name)
  {
    var i := CutInsideName(sent, value);
    IndexOfUnique(sent, '=', i);
  }

  lemma ArgvParts(cfg: Config, env: seq<string>, command: string, initExists: bool)
    ensures ChildArgv(cfg, env, command, initExists) ==
            (if cfg.initPath != "" && initExists then [cfg.initPath, "--"] else []) + [cfg.shell]
            + if command == "" then ["-l"] else [if NoLogin(env) then "-c" else "-lc", command]
  {}

  /** The whole command line, for every run that starts a child: the init wrapper
      and its separator exactly when a wrapper is configured and exists, then the
      shell, then -l alone for a shell request, or -lc, or -c when the client's
      first entry for the switch is truthy, with the command. */
  lemma ArgvMeaning(cfg: Config, rs: seq<Request>)
    requires FirstStart(rs) < |rs|
    ensures var r := rs[FirstStart(rs)];
            var first := FirstEntry(AcceptedEnv(rs[..FirstStart(rs)]), NO_LOGIN_SHELL);
            var command := if r.kind.Exec? && r.kind.command.Some? then r.kind.command.value else "";
            var wrapper := if cfg.initPath != "" && r.initExists then [cfg.initPath, "--"] else [];
            var child := Run(cfg, rs).child;
            && child.Some?
            && child.value.argv == wrapper + [cfg.shell] + if command == "" then ["-l"]
                 else [if first.Some? && SaysYes(CutValue(first.value)) then "-c" else "-lc", command]
  {
    RunChild(cfg, rs);
    var r, sent := rs[FirstStart(rs)], AcceptedEnv(rs[..FirstStart(rs)]);
    AcceptedEnvHasEquals(rs[..FirstStart(rs)]);
    ScanMeaning(sent);
    ArgvParts(cfg, sent, CommandOf(r), r.initExists);
    assert Run(cfg, rs).child.value.argv == ChildArgv(cfg, sent, CommandOf(r), r.initExists);
  }

  function FirstEntry(l: seq<string>, k: string): Option<string> {
    if l == [] then None
    else if KeyOf(l[0]) == Some(k) then Some(l[0])
    else FirstEntry(l[1..], k)
  }

  /** Whether an environment gives the switch a truthy value. */
  predicate SwitchOn(env: seq<string>) {
    var e := LastEntry(env, NO_LOGIN_SHELL);
    e.Some? && SaysYes(CutValue(e.value))
  }

  /** What the scan looks at, told by the first entry for the switch. */
  lemma {:induction false} ScanMeaning(env: seq<string>)
    requires forall i | 0 <= i < |env| :: '=' in env[i]
    ensures var first := FirstEntry(env, NO_LOGIN_SHELL);
            && (first.Some? <==> LastEntry(env, NO_LOGIN_SHELL).Some?)
            && (NoLogin(env) <==> first.Some? && SaysYes(CutValue(first.value)))
  {
    if env != [] {
      assert env == [env[0]] + env[1..];
      LastEntryConcat([env[0]], env[1..], NO_LOGIN_SHELL);
      assert [env[0]][..0] == [];
      TruthyMeaning(CutValue(env[0]));
      ScanMeaning(env[1..]);
    }
  }

  lemma {:induction false} AcceptedEnvHasEquals(rs: seq<Request>)
    ensures forall i | 0 <= i < |AcceptedEnv(rs)| :: '=' in AcceptedEnv(rs)[i]
  {
    if rs != [] {
      AcceptedEnvHasEquals(rs[..|rs| - 1]);
      var k := rs[|rs| - 1].kind;
      if k.EnvReq? && k.pair.Some? {
        assert (k.pair.value.0 + "=" + k.pair.value.1)[|k.pair.value.0|] == '=';
      }
    }
  }

  lemma TermIsNotTheSwitch(pty: Option<Pty>)
    ensures LastEntry(TermEntries(pty), NO_LOGIN_SHELL) == None
  {
    if pty.Some? && pty.value.term != "" {
      var e := "TERM=" + pty.value.term;
      IndexOfUnique(e, '=', 4);
      assert e[..4] == "TERM";
      assert KeyOf(e) != Some(NO_LOGIN_SHELL);
    }
  }

  /** The child's entry for the switch: the client's last one, else the base's. */
  lemma ChildSwitchEntry(base: seq<string>, pty: Option<Pty>, sent: seq<string>)
    ensures LastEntry(Merged(base + (TermEntries(pty) + sent)), NO_LOGIN_SHELL) ==
            if LastEntry(sent, NO_LOGIN_SHELL).Some? then LastEntry(sent, NO_LOGIN_SHELL)
            else LastEntry(base, NO_LOGIN_SHELL)
  {
    MergedKeepsMeaning(base + (TermEntries(pty) + sent));
    LastEntryConcat(base, TermEntries(pty) + sent, NO_LOGIN_SHELL);
    LastEntryConcat(TermEntries(pty), sent, NO_LOGIN_SHELL);
    TermIsNotTheSwitch(pty);
  }

  /** The flag before the command of an exec: -c without login, -lc with. */
  function ShellFlag(child: Child): string
    requires |child.argv| >= 2
  {
    child.argv[|child.argv| - 2]
  }

  lemma ArgvFlag(cfg: Config, env: seq<string>, command: string, initExists: bool)
    requires command != ""
    ensures var argv := ChildArgv(cfg, env, command, initExists);
            && |argv| >= 3 && argv[|argv| - 1] == command
            && argv[|argv| - 2] == if NoLogin(env) then "-c" else "-lc"
  {}

  /** When the login switch and the child's environment agree: exactly when the
      client's first and last entries for it are equally truthy, or the client
      sent none and the base environment's value is not truthy. */
  predicate SwitchConsistent(base: seq<string>, sent: seq<string>) {
    var first, last := FirstEntry(sent, NO_LOGIN_SHELL), LastEntry(sent, NO_LOGIN_SHELL);
    if first.Some? && last.Some? then SaysYes(CutValue(first.value)) <==> SaysYes(CutValue(last.value))
    else !SwitchOn(base)
  }

  /** The switch in the argv and in the environment of a child made of these settings. */
  lemma SwitchOfChild(cfg: Config, sent: seq<string>, pty: Option<Pty>, command: string, initExists: bool)
    requires command != "" && forall i | 0 <= i < |sent| :: '=' in sent[i]
    ensures var child := MakeChild(cfg, sent, pty, command, initExists);
            && |child.argv| >= 3 && ShellFlag(child) == (if NoLogin(sent) then "-c" else "-lc")
            && ((NoLogin(sent) <==> SwitchOn(child.env)) <==> SwitchConsistent(cfg.env, sent))
  {
    ScanMeaning(sent);
    ArgvFlag(cfg, sent, command, initExists);
    ChildSwitchEntry(cfg.env, pty, sent);
  }

  /** In every run that starts a command, the command runs without a login shell
      exactly when the first accepted entry for the switch is truthy, and that
      agrees with the switch in the child's environment in exactly the cases
      above: the scan reads the client's entries only, while the child's entry
      is the last one of the base and the client. */
  lemma SwitchAgreesIff(cfg: Config, rs: seq<Request>)
    requires FirstStart(rs) < |rs| && CommandOf(rs[FirstStart(rs)]) != ""
    ensures var sent, child := AcceptedEnv(rs[..FirstStart(rs)]), Run(cfg, rs).child;
            var first := FirstEntry(sent, NO_LOGIN_SHELL);
            && child.Some? && |child.value.argv| >= 3
            && (ShellFlag(child.value) == "-c" <==> first.Some? && SaysYes(CutValue(first.value)))
            && (ShellFlag(child.value) != "-c" ==> ShellFlag(child.value) == "-lc")
            && ((ShellFlag(child.value) == "-c" <==> SwitchOn(child.value.env))
                <==> SwitchConsistent(cfg.env, sent))
  {
    RunChild(cfg, rs);
    var i := FirstStart(rs);
    AcceptedEnvHasEquals(rs[..i]);
    ScanMeaning(AcceptedEnv(rs[..i]));
    SwitchOfChild(cfg, AcceptedEnv(rs[..i]), LastPty(rs[..i]), CommandOf(rs[i]), rs[i].initExists);
  }

  function EnvRequest(name: string, value: string): Request {
    Request(EnvReq(Some((name, value))), false, true, false)
  }

  function ExecRequest(command: string): Request {
    Request(Exec(Some(command)), false, true, false)
  }

  lemma SwitchEntry(value: string)
    ensures var e := NO_LOGIN_SHELL + "=" + value;
            KeyOf(e) == Some(NO_LOGIN_SHELL) && CutValue(e) == value
  {
    var e := NO_LOGIN_SHELL + "=" + value;
    IndexOfUnique(e, '=', |NO_LOGIN_SHELL|);
    assert e[..|NO_LOGIN_SHELL|] == NO_LOGIN_SHELL && e[|NO_LOGIN_SHELL| + 1..] == value;
  }

  lemma OneAndZero()
    ensures SaysYes("1") && !SaysYes("0")
  {
    TrimFixedIff("1");
    TrimFixedIff("0");
    assert ToLower("1") == "1" && ToLower("0") == "0";
  }

  /** The first kind of failing run: the switch sent on, then off. The command
      runs without a login shell although its environment says otherwise. */
  lemma SwitchedOffTooLate(cfg: Config, command: string)
    requires command != ""
    ensures var rs := [EnvRequest(NO_LOGIN_SHELL, "1"), EnvRequest(NO_LOGIN_SHELL, "0"), ExecRequest(command)];
            var child := Run(cfg, rs).child;
            && child.Some? && |child.value.argv| >= 3
            && ShellFlag(child.value) == "-c" && !SwitchOn(child.value.env)
  {
    var on, off := NO_LOGIN_SHELL + "=" + "1", NO_LOGIN_SHELL + "=" + "0";
    var rs := [EnvRequest(NO_LOGIN_SHELL, "1"), EnvRequest(NO_LOGIN_SHELL, "0"), ExecRequest(command)];
    assert rs[..2][..1] == [rs[0]] && [rs[0]][..0] == [];
    assert AcceptedEnv([rs[0]]) == [on];
    assert AcceptedEnv(rs[..2]) == [on, off];
    assert FirstStart(rs[..2]) == 2 && FirstStart(rs) == 2;
    SwitchEntry("1");
    SwitchEntry("0");
    OneAndZero();
    assert FirstEntry([on, off], NO_LOGIN_SHELL) == Some(on) && LastEntry([on, off], NO_LOGIN_SHELL) == Some(off);
    SwitchAgreesIff(cfg, rs);
  }

  /** The second kind: the base environment turns the switch on and the client
      sends nothing. The command runs under a login shell all the same. */
  lemma SwitchInBaseIgnored(cfg: Config, command: string)
    requires command != "" && cfg.env == [NO_LOGIN_SHELL + "=" + "1"]
    ensures var child := Run(cfg, [ExecRequest(command)]).child;
            && child.Some? && |child.value.argv| >= 3
            && ShellFlag(child.value) == "-lc" && SwitchOn(child.value.env)
  {
    var rs := [ExecRequest(command)];
    assert rs[..0] == [] && FirstStart(rs[..0]) == 0 && FirstStart(rs) == 0;
    SwitchEntry("1");
    OneAndZero();
    assert LastEntry(cfg.env, NO_LOGIN_SHELL) == Some(cfg.env[0]);
    SwitchAgreesIff(cfg, rs);
  }
}
