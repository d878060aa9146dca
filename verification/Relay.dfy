/** One direct-tcpip channel (sections 5.3 and 7.2 of RFC 4254): the checks
    before dialling, the two copiers with their half-closes, and the full
    closes at the end, as interleaved steps (sshserver/server.go). A run is a
    sequence of choices; a choice that is not enabled changes nothing. */
module Relay {
  import opened Wrappers
  import opened Base64

  /** The parsed payload, whether its host is a loopback name or address
      (IsLoopbackHost), and whether the dialled connection can half-close. */
  datatype Request = Request(port: Option<nat>, loopback: bool, canHalfClose: bool)

  datatype Side = Up | Down

  datatype Copier = Copying | Stopped | Finished

  /** One direction: what its source has sent and whether it has ended, what the
      copier has taken and still holds, and what the other end has received. */
  datatype Direction = Direction(sent: Bytes, eof: bool, taken: nat, buf: Bytes, received: Bytes,
                                 copier: Copier, failed: bool)

  datatype Phase = Checking | Dialling | Accepting | Relaying | Closing | Ended | Rejected(prohibited: bool)

  datatype Conn = NotOpen | Open | Closed

  datatype Event = Dialled | CopyEnd(side: Side) | HalfClose(side: Side) | CloseChannel | CloseTarget

  datatype State = State(phase: Phase, target: Conn, up: Direction, down: Direction, log: seq<Event>)

  datatype Choice =
    | Check
    | Dial(ok: bool)
    | Accept(ok: bool)
    | Send(side: Side, bytes: Bytes)
    | SendEof(side: Side)
    | Read(side: Side, n: nat)
    | Write(side: Side, n: nat)
    | ReadEof(side: Side)
    | IoError(side: Side)
    | EndHalf(side: Side)
    | CloseBoth
    | CloseLast

  const NEW_DIRECTION := Direction([], false, 0, [], [], Copying, false)
  const START := State(Checking, NotOpen, NEW_DIRECTION, NEW_DIRECTION, [])

  function Get(s: State, side: Side): Direction {
    if side.Up? then s.up else s.down
  }

  function Set(s: State, side: Side, d: Direction): State {
    if side.Up? then s.(up := d) else s.(down := d)
  }

  /** Only a well-formed request for a valid port on a loopback host is dialled. */
  predicate Permitted(r: Request) {
    r.port.Some? && 1 <= r.port.value <= 65535 && r.loopback
  }

  function Setup(r: Request, s: State, c: Choice): State {
    match c
    case Check =>
      if !s.phase.Checking? then s
      else if r.port.None? then s.(phase := Rejected(false))
      else if r.port.value == 0 || r.port.value > 65535 then s.(phase := Rejected(true))
      else if !r.loopback then s.(phase := Rejected(true))
      else s.(phase := Dialling)
    case Dial(ok) =>
      if !s.phase.Dialling? then s
      else if ok then s.(phase := Accepting, target := Open, log := s.log + [Dialled])
      else s.(phase := Rejected(false))
    case Accept(ok) =>
      if !s.phase.Accepting? then s
      else if ok then s.(phase := Relaying)
      else s.(phase := Ended, target := Closed, log := s.log + [CloseTarget])
    case _ => s
  }

  /** io.Copy of one direction, up to its end. */
  function Copy(d: Direction, c: Choice): Direction {
    match c
    case Send(_, bytes) => if d.eof then d else d.(sent := d.sent + bytes)
    case SendEof(_) => d.(eof := true)
    case Read(_, n) =>
      if d.copier.Copying? && d.buf == [] && d.taken + n <= |d.sent|
      then d.(buf := d.sent[d.taken..d.taken + n], taken := d.taken + n) else d
    case Write(_, n) =>
      if d.copier.Copying? && n <= |d.buf|
      then d.(buf := d.buf[n..], received := d.received + d.buf[..n]) else d
    case ReadEof(_) =>
      if d.copier.Copying? && d.buf == [] && d.taken == |d.sent| && d.eof then d.(copier := Stopped) else d
    case IoError(_) => if d.copier.Copying? then d.(copier := Stopped, failed := true) else d
    case _ => d
  }

  function CopyStep(s: State, side: Side, c: Choice): State {
    var d := Copy(Get(s, side), c);
    var t := Set(s, side, d);
    if d.copier.Stopped? && Get(s, side).copier.Copying? then t.(log := s.log + [CopyEnd(side)]) else t
  }

  /** The half-close that follows a copier's end; a target that cannot do it is
      skipped, the SSH channel always can. */
  function EndHalfStep(r: Request, s: State, side: Side): State {
    var d := Get(s, side);
    if !d.copier.Stopped? then s
    else
      var t := Set(s, side, d.(copier := Finished));
      if side.Down? || r.canHalfClose then t.(log := s.log + [HalfClose(side)]) else t
  }

  function Teardown(s: State, c: Choice): State {
    match c
    case CloseBoth =>
      if s.phase.Relaying? && s.up.copier.Finished? && s.down.copier.Finished?
      then s.(phase := Closing, log := s.log + [CloseChannel]) else s
    case CloseLast =>
      if s.phase.Closing? then s.(phase := Ended, target := Closed, log := s.log + [CloseTarget]) else s
    case _ => s
  }

  function Do(r: Request, s: State, c: Choice): State {
    match c
    case Check => Setup(r, s, c)
    case Dial(_) => Setup(r, s, c)
    case Accept(_) => Setup(r, s, c)
    case CloseBoth => Teardown(s, c)
    case CloseLast => Teardown(s, c)
    case EndHalf(side) => if s.phase.Relaying? then EndHalfStep(r, s, side) else s
    case _ => if s.phase.Relaying? then CopyStep(s, c.side, c) else s
  }

  function Run(r: Request, s: State, choices: seq<Choice>): State
    decreases |choices|
  {
    if choices == [] then s else Run(r, Do(r, s, choices[0]), choices[1..])
  }

  // ----- the invariant -----

  predicate DirectionOk(d: Direction) {
    && d.taken <= |d.sent|
    && d.received + d.buf == d.sent[..d.taken]
    && (!d.copier.Copying? && !d.failed ==> d.received == d.sent && d.eof)
  }

  /** a stands in the log, and before every b. */
  predicate Precedes(log: seq<Event>, a: Event, b: Event) {
    forall p | 0 <= p < |log| && log[p] == b :: a in log[..p]
  }

  predicate LogOk(r: Request, log: seq<Event>) {
    && Precedes(log, CopyEnd(Up), HalfClose(Up)) && Precedes(log, CopyEnd(Down), HalfClose(Down))
    && Precedes(log, CopyEnd(Up), CloseChannel) && Precedes(log, CopyEnd(Down), CloseChannel)
    && Precedes(log, HalfClose(Down), CloseChannel)
    && (r.canHalfClose ==> Precedes(log, HalfClose(Up), CloseChannel))
    && Precedes(log, Dialled, CopyEnd(Up)) && Precedes(log, Dialled, CopyEnd(Down))
    && Precedes(log, Dialled, CloseTarget)
  }

  predicate BeforeRelay(p: Phase) {
    p.Checking? || p.Dialling? || p.Accepting? || p.Rejected?
  }

  predicate PhaseOk(r: Request, s: State) {
    && (s.target.Open? <==> s.phase.Accepting? || s.phase.Relaying? || s.phase.Closing?)
    && (s.target.NotOpen? <==> s.phase.Checking? || s.phase.Dialling? || s.phase.Rejected?)
    && (s.target.NotOpen? <==> Dialled !in s.log)
    && (!s.phase.Checking? && !s.phase.Rejected? ==> Permitted(r))
    && (s.phase.Rejected? ==> (s.phase.prohibited <==> r.port.Some? && !Permitted(r)))
    && (s.target.Closed? <==> CloseTarget in s.log)
    && (CloseChannel in s.log ==> s.phase.Closing? || s.phase.Ended?)
    && (s.phase.Closing? ==> CloseChannel in s.log)
    && (s.phase.Ended? && s.up.eof ==> CloseChannel in s.log)
    && (BeforeRelay(s.phase) ==> !s.up.eof && s.up.copier.Copying? && s.down.copier.Copying?)
  }

  predicate CopiersOk(r: Request, s: State) {
    && (!s.up.copier.Copying? <==> CopyEnd(Up) in s.log)
    && (!s.down.copier.Copying? <==> CopyEnd(Down) in s.log)
    && (s.down.copier.Finished? ==> HalfClose(Down) in s.log)
    && (s.up.copier.Finished? && r.canHalfClose ==> HalfClose(Up) in s.log)
    && (HalfClose(Up) in s.log ==> r.canHalfClose)
    && (CloseChannel in s.log ==> s.up.copier.Finished? && s.down.copier.Finished?)
  }

  predicate Inv(r: Request, s: State) {
    DirectionOk(s.up) && DirectionOk(s.down) && LogOk(r, s.log) && PhaseOk(r, s) && CopiersOk(r, s)
  }

  lemma CopyKeepsDirection(d: Direction, c: Choice)
    requires DirectionOk(d)
    ensures DirectionOk(Copy(d, c))
  {
    match c
    case Send(_, bytes) => assert (d.sent + bytes)[..d.taken] == d.sent[..d.taken];
    case Read(_, n) => ReadKeepsDirection(d, c);
    case Write(_, n) => WriteKeepsDirection(d, c);
    case ReadEof(_) => assert d.sent[..|d.sent|] == d.sent && d.received + [] == d.received;
    case _ =>
  }

  lemma ReadKeepsDirection(d: Direction, c: Choice)
    requires DirectionOk(d) && c.Read?
    ensures DirectionOk(Copy(d, c))
  {
    if d.buf == [] && d.taken + c.n <= |d.sent| {
      assert d.received + [] == d.received;
      assert d.sent[..d.taken] + d.sent[d.taken..d.taken + c.n] == d.sent[..d.taken + c.n];
    }
  }

  lemma WriteKeepsDirection(d: Direction, c: Choice)
    requires DirectionOk(d) && c.Write?
    ensures DirectionOk(Copy(d, c))
  {
    if c.n <= |d.buf| {
      assert d.received + d.buf[..c.n] + d.buf[c.n..] == d.received + d.buf;
    }
  }

  lemma PrecedesAppend(log: seq<Event>, e: Event, a: Event, b: Event)
    requires Precedes(log, a, b) && (e == b ==> a in log)
    ensures Precedes(log + [e], a, b)
  {
    forall p | 0 <= p < |log + [e]| && (log + [e])[p] == b ensures a in (log + [e])[..p] {
      assert (log + [e])[..p] == log[..p];
      if p == |log| { assert log[..p] == log; }
    }
  }

  lemma LogAppend(r: Request, log: seq<Event>, e: Event)
    requires LogOk(r, log)
    requires e == HalfClose(Up) ==> CopyEnd(Up) in log
    requires e == HalfClose(Down) ==> CopyEnd(Down) in log
    requires e == CloseChannel ==> CopyEnd(Up) in log && CopyEnd(Down) in log && HalfClose(Down) in log
    requires e == CloseChannel && r.canHalfClose ==> HalfClose(Up) in log
    requires e.CopyEnd? || e.CloseTarget? ==> Dialled in log
    ensures LogOk(r, log + [e])
  {
    PrecedesAppend(log, e, CopyEnd(Up), HalfClose(Up));
    PrecedesAppend(log, e, CopyEnd(Down), HalfClose(Down));
    PrecedesAppend(log, e, CopyEnd(Up), CloseChannel);
    PrecedesAppend(log, e, CopyEnd(Down), CloseChannel);
    PrecedesAppend(log, e, HalfClose(Down), CloseChannel);
    if r.canHalfClose { PrecedesAppend(log, e, HalfClose(Up), CloseChannel); }
    PrecedesAppend(log, e, Dialled, CopyEnd(Up));
    PrecedesAppend(log, e, Dialled, CopyEnd(Down));
    PrecedesAppend(log, e, Dialled, CloseTarget);
  }

  lemma CopyStepKeepsLog(r: Request, s: State, side: Side, c: Choice)
    requires LogOk(r, s.log) && PhaseOk(r, s) && s.phase.Relaying?
    ensures LogOk(r, CopyStep(s, side, c).log)
  {
    LogAppend(r, s.log, CopyEnd(side));
  }

  lemma CopyStepKeepsRest(r: Request, s: State, side: Side, c: Choice)
    requires PhaseOk(r, s) && CopiersOk(r, s) && s.phase.Relaying?
    ensures PhaseOk(r, CopyStep(s, side, c)) && CopiersOk(r, CopyStep(s, side, c))
  {}

  lemma CopyStepKeepsInv(r: Request, s: State, side: Side, c: Choice)
    requires Inv(r, s) && s.phase.Relaying?
    ensures Inv(r, CopyStep(s, side, c))
  {
    CopyKeepsDirection(Get(s, side), c);
    CopyStepKeepsLog(r, s, side, c);
    CopyStepKeepsRest(r, s, side, c);
  }

  lemma EndHalfKeepsInv(r: Request, s: State, side: Side)
    requires Inv(r, s) && s.phase.Relaying?
    ensures Inv(r, EndHalfStep(r, s, side))
  {
    if Get(s, side).copier.Stopped? {
      LogAppend(r, s.log, HalfClose(side));
    }
  }

  lemma SetupKeepsLog(r: Request, s: State, c: Choice)
    requires LogOk(r, s.log) && PhaseOk(r, s)
    ensures LogOk(r, Setup(r, s, c).log)
  {
    if Setup(r, s, c).log != s.log {
      LogAppend(r, s.log, if c.Dial? then Dialled else CloseTarget);
    }
  }

  lemma SetupKeepsPhase(r: Request, s: State, c: Choice)
    requires PhaseOk(r, s) && CopiersOk(r, s)
    ensures PhaseOk(r, Setup(r, s, c)) && CopiersOk(r, Setup(r, s, c))
  {}

  lemma SetupKeepsInv(r: Request, s: State, c: Choice)
    requires Inv(r, s)
    ensures Inv(r, Setup(r, s, c))
  {
    SetupKeepsLog(r, s, c);
    SetupKeepsPhase(r, s, c);
    SetupCopiesNothing(r, s, c);
  }

  lemma SetupCopiesNothing(r: Request, s: State, c: Choice)
    ensures Setup(r, s, c).up == s.up && Setup(r, s, c).down == s.down
  {}

  lemma TeardownKeepsLog(r: Request, s: State, c: Choice)
    requires LogOk(r, s.log) && PhaseOk(r, s) && CopiersOk(r, s)
    ensures LogOk(r, Teardown(s, c).log)
  {
    if Teardown(s, c) != s {
      LogAppend(r, s.log, if c.CloseBoth? then CloseChannel else CloseTarget);
    }
  }

  lemma TeardownKeepsRest(r: Request, s: State, c: Choice)
    requires PhaseOk(r, s) && CopiersOk(r, s)
    ensures PhaseOk(r, Teardown(s, c)) && CopiersOk(r, Teardown(s, c))
  {}

  lemma TeardownKeepsInv(r: Request, s: State, c: Choice)
    requires Inv(r, s)
    ensures Inv(r, Teardown(s, c))
  {
    TeardownKeepsLog(r, s, c);
    TeardownKeepsRest(r, s, c);
    TeardownCopiesNothing(s, c);
  }

  lemma TeardownCopiesNothing(s: State, c: Choice)
    ensures Teardown(s, c).up == s.up && Teardown(s, c).down == s.down
  {}

  lemma DoKeepsInv(r: Request, s: State, c: Choice)
    requires Inv(r, s)
    ensures Inv(r, Do(r, s, c))
  {
    SetupKeepsInv(r, s, c);
    TeardownKeepsInv(r, s, c);
    if s.phase.Relaying? {
      if c.EndHalf? {
        EndHalfKeepsInv(r, s, c.side);
      } else if !c.Check? && !c.Dial? && !c.Accept? && !c.CloseBoth? && !c.CloseLast? {
        CopyStepKeepsInv(r, s, c.side, c);
      }
    }
  }

  lemma {:induction false} RunKeepsInv(r: Request, s: State, choices: seq<Choice>)
    requires Inv(r, s)
    ensures Inv(r, Run(r, s, choices))
    decreases |choices|
  {
    if choices != [] {
      DoKeepsInv(r, s, choices[0]);
      RunKeepsInv(r, Do(r, s, choices[0]), choices[1..]);
    }
  }

  // ----- the theorems -----

  /** In every interleaving each end has received a prefix of what the other
      sent, and all of it if that direction's copier stopped without an error. */
  lemma ReceivedIsPrefix(r: Request, choices: seq<Choice>, side: Side)
    ensures var d := Get(Run(r, START, choices), side);
            && d.received <= d.sent
            && (!d.copier.Copying? && !d.failed ==> d.received == d.sent && d.eof)
  {
    RunKeepsInv(r, START, choices);
  }

  /** Each half-close follows the end of its own copier, the channel is closed
      after both copiers ended and both half-closes were made (the target's if it
      can half-close), and the target is closed exactly on the paths that dialled
      it and are over: also when accepting the channel fails. Only permitted
      requests are dialled; the others are refused as prohibited when their
      payload parses. */
  lemma ClosesInOrder(r: Request, choices: seq<Choice>)
    ensures var s := Run(r, START, choices);
            && LogOk(r, s.log)
            && (HalfClose(Up) in s.log ==> r.canHalfClose)
            && (Dialled in s.log ==> Permitted(r))
            && (s.phase.Rejected? ==> (s.phase.prohibited <==> r.port.Some? && !Permitted(r)))
            && (s.target.Open? ==> !s.phase.Ended? && !s.phase.Rejected?)
            && (s.phase.Ended? || s.phase.Rejected? ==> (CloseTarget in s.log <==> Dialled in s.log))
            && (CloseTarget in s.log ==> s.phase.Ended?)
  {
    RunKeepsInv(r, START, choices);
  }

  // ----- setting up -----

  /** A payload that parses, a port from 1 to 65535 and a loopback host. */
  predicate Forwardable(r: Request) {
    match r.port
    case None => false
    case Some(port) => 1 <= port <= 65535 && r.loopback
  }

  /** What the checks come to: a payload that does not parse fails, and what is
      not forwardable is prohibited; everything else goes on to be dialled. */
  lemma ChecksMeaning(r: Request)
    ensures Permitted(r) <==> Forwardable(r)
    ensures Run(r, START, [Check]) ==
            START.(phase := if r.port.None? then Rejected(false)
                            else if Forwardable(r) then Dialling else Rejected(true))
  {
    assert [Check] == [Check] + [];
    Run1(r, START, Check, []);
  }

  lemma Run1(r: Request, s: State, c: Choice, rest: seq<Choice>)
    ensures Run(r, s, [c] + rest) == Run(r, Do(r, s, c), rest)
  {
    assert ([c] + rest)[1..] == rest;
  }

  /** In every run a forwardable request is refused only because its dial failed,
      and any other one is never dialled. */
  lemma RefusedOnlyByDial(r: Request, choices: seq<Choice>)
    ensures var s := Run(r, START, choices);
            && (Forwardable(r) && s.phase.Rejected? ==> Dial(false) in choices && !s.phase.prohibited)
            && (!Forwardable(r) ==> (s.phase.Checking? || s.phase.Rejected?) && Dialled !in s.log)
  {
    if Forwardable(r) { RefusedFrom(r, START, choices); }
    ChecksMeaning(r);
    RunKeepsInv(r, START, choices);
  }

  lemma {:induction false} RefusedFrom(r: Request, s: State, choices: seq<Choice>)
    requires Forwardable(r) && !s.phase.Rejected?
    ensures var t := Run(r, s, choices); t.phase.Rejected? ==> Dial(false) in choices
    decreases |choices|
  {
    if choices != [] {
      var t := Do(r, s, choices[0]);
      if t.phase.Rejected? {
        assert choices[0] == Dial(false);
      } else {
        RefusedFrom(r, t, choices[1..]);
      }
    }
  }

  /** A forwardable request whose dial and accept succeed is relayed, with its
      target open; one whose accept fails has its target closed at once. */
  lemma SetupSucceeds(r: Request)
    requires Forwardable(r)
    ensures Run(r, START, [Check] + ([Dial(true)] + ([Accept(true)] + []))) ==
            START.(phase := Relaying, target := Open, log := [Dialled])
    ensures Run(r, START, [Check] + ([Dial(true)] + ([Accept(false)] + []))) ==
            START.(phase := Ended, target := Closed, log := [Dialled, CloseTarget])
  {
    ChecksMeaning(r);
    var checked := START.(phase := Dialling);
    var dialled := START.(phase := Accepting, target := Open, log := [Dialled]);
    Run1(r, START, Check, []);
    assert [Check] + [] == [Check] && Do(r, START, Check) == checked;
    Run1(r, START, Check, [Dial(true)] + ([Accept(true)] + []));
    Run1(r, START, Check, [Dial(true)] + ([Accept(false)] + []));
    assert START.log + [Dialled] == [Dialled];
    Run1(r, checked, Dial(true), [Accept(true)] + []);
    Run1(r, checked, Dial(true), [Accept(false)] + []);
    Run1(r, dialled, Accept(true), []);
    Run1(r, dialled, Accept(false), []);
  }

  /** So every forwardable request has runs to a point where both sides have said
      whatever they have to say, from which the theorems below start. */
  lemma BothCanSpeak(r: Request, up: Bytes, down: Bytes) returns (choices: seq<Choice>)
    requires Forwardable(r)
    ensures var s := Run(r, START, choices);
            BothEnded(s) && NoneFailed(s) && s.up.sent == up && s.down.sent == down
  {
    SetupSucceeds(r);
    var setup := [Check] + ([Dial(true)] + ([Accept(true)] + []));
    var s := Run(r, START, setup);
    var talk := [Send(Up, up)] + ([Send(Down, down)] + ([SendEof(Up)] + ([SendEof(Down)] + [])));
    choices := setup + talk;
    RunConcat(r, START, setup, talk);
    var s1 := Do(r, s, Send(Up, up));
    var s2 := Do(r, s1, Send(Down, down));
    var s3 := Do(r, s2, SendEof(Up));
    Run1(r, s, Send(Up, up), [Send(Down, down)] + ([SendEof(Up)] + ([SendEof(Down)] + [])));
    Run1(r, s1, Send(Down, down), [SendEof(Up)] + ([SendEof(Down)] + []));
    Run1(r, s2, SendEof(Up), [SendEof(Down)] + []);
    Run1(r, s3, SendEof(Down), []);
    assert [] + up == up && [] + down == down;
  }

  lemma {:induction false} RunConcat(r: Request, s: State, a: seq<Choice>, b: seq<Choice>)
    ensures Run(r, s, a + b) == Run(r, Run(r, s, a), b)
    decreases |a|
  {
    if a == [] {
      assert a + b == b;
    } else {
      assert (a + b)[1..] == a[1..] + b;
      RunConcat(r, Do(r, s, a[0]), a[1..], b);
    }
  }

  // ----- delivery -----

  function CopierRank(c: Copier): nat {
    match c
    case Copying => 2
    case Stopped => 1
    case Finished => 0
  }

  /** The bytes still to move, read ones counting once and unread ones twice,
      and the steps after them. */
  function DirectionWork(d: Direction): int {
    2 * (|d.sent| - d.taken) + |d.buf| + CopierRank(d.copier)
  }

  function Work(s: State): int {
    DirectionWork(s.up) + DirectionWork(s.down) + (if s.phase.Relaying? then 2 else if s.phase.Closing? then 1 else 0)
  }

  /** The relay's own steps, I/O errors included. */
  predicate Own(c: Choice) {
    !c.Check? && !c.Dial? && !c.Accept?
  }

  predicate Clean(c: Choice) {
    Own(c) && !c.IoError?
  }

  predicate BothEnded(s: State) {
    (s.phase.Relaying? || s.phase.Closing? || s.phase.Ended?) && s.up.eof && s.down.eof
  }

  predicate NoneFailed(s: State) {
    !s.up.failed && !s.down.failed
  }

  predicate DirectionsOk(s: State) {
    DirectionOk(s.up) && DirectionOk(s.down)
  }

  /** The copiers' sources have not changed, and only an I/O error makes one fail. */
  predicate OnlyMoved(s: State, t: State, clean: bool) {
    && t.up.sent == s.up.sent && t.down.sent == s.down.sent
    && (clean ==> t.up.failed == s.up.failed && t.down.failed == s.down.failed)
  }

  lemma CopyStepWorks(s: State, side: Side, c: Choice)
    requires DirectionsOk(s) && BothEnded(s) && Own(c) && CopyStep(s, side, c) != s
    ensures var t := CopyStep(s, side, c);
            BothEnded(t) && Work(t) < Work(s) && DirectionsOk(t) && OnlyMoved(s, t, Clean(c))
  {
    CopyKeepsDirection(Get(s, side), c);
    CopyLowersWork(Get(s, side), c);
  }

  /** Once both sources have ended, every step of the relay that does something
      leaves less to do, I/O errors included. */
  lemma OwnStepWorks(r: Request, s: State, c: Choice)
    requires DirectionsOk(s) && BothEnded(s) && Own(c) && Do(r, s, c) != s
    ensures var t := Do(r, s, c);
            BothEnded(t) && Work(t) < Work(s) && DirectionsOk(t) && OnlyMoved(s, t, Clean(c))
  {
    if s.phase.Relaying? && !c.CloseBoth? && !c.CloseLast? && !c.EndHalf? {
      CopyStepWorks(s, c.side, c);
    }
  }

  lemma CopyLowersWork(d: Direction, c: Choice)
    requires DirectionOk(d) && d.eof && Copy(d, c) != d
    ensures DirectionWork(Copy(d, c)) < DirectionWork(d)
    ensures Copy(d, c).sent == d.sent && Copy(d, c).eof
    ensures !c.IoError? ==> Copy(d, c).failed == d.failed
  {
    assert d.buf[0..] == d.buf && d.received + d.buf[..0] == d.received;
  }

  /** Until it has ended, a relay whose two sources have ended has a next step. */
  lemma NeverStuck(r: Request, s: State) returns (c: Choice)
    requires DirectionsOk(s) && BothEnded(s) && !s.phase.Ended?
    ensures Clean(c) && Do(r, s, c) != s
  {
    if s.phase.Closing? {
      c := CloseLast;
    } else if s.up.copier.Finished? && s.down.copier.Finished? {
      c := CloseBoth;
    } else {
      var side := if s.up.copier.Finished? then Down else Up;
      var d := Get(s, side);
      if d.copier.Stopped? {
        c := EndHalf(side);
      } else if d.buf != [] {
        c := Write(side, |d.buf|);
        assert Copy(d, c).buf == [];
      } else if d.taken < |d.sent| {
        c := Read(side, 1);
        assert Copy(d, c).taken == d.taken + 1;
      } else {
        c := ReadEof(side);
      }
    }
  }

  /** Every choice changes the state and is one of the relay's own. */
  predicate Effective(r: Request, s: State, choices: seq<Choice>)
    decreases |choices|
  {
    choices == []
    || (Own(choices[0]) && Do(r, s, choices[0]) != s && Effective(r, Do(r, s, choices[0]), choices[1..]))
  }

  predicate AllClean(choices: seq<Choice>) {
    forall i | 0 <= i < |choices| :: Clean(choices[i])
  }

  lemma {:induction false} EffectiveLowersWork(r: Request, s: State, choices: seq<Choice>)
    requires DirectionsOk(s) && BothEnded(s) && Effective(r, s, choices)
    ensures var t := Run(r, s, choices);
            && BothEnded(t) && DirectionsOk(t) && Work(t) + |choices| <= Work(s)
            && OnlyMoved(s, t, AllClean(choices))
    decreases |choices|
  {
    if choices != [] {
      OwnStepWorks(r, s, choices[0]);
      EffectiveLowersWork(r, Do(r, s, choices[0]), choices[1..]);
      assert AllClean(choices) ==> Clean(choices[0]) && AllClean(choices[1..]);
    }
  }

  /** Take any run to a point where both sources have ended. However the relay
      is scheduled from there, and whichever of its reads and writes fail, it
      makes at most Work more steps, and when no step is left it has ended and
      closed both sides. */
  lemma AlwaysEnds(r: Request, before: seq<Choice>, after: seq<Choice>)
    requires var s := Run(r, START, before); BothEnded(s) && Effective(r, s, after)
    ensures var s := Run(r, START, before);
            var t := Run(r, s, after);
            && |after| <= Work(s)
            && ((forall c | Clean(c) :: Do(r, t, c) == t) ==>
                  t.phase.Ended? && t.target.Closed? && CloseChannel in t.log && CloseTarget in t.log)
  {
    var s := Run(r, START, before);
    RunKeepsInv(r, START, before);
    RunKeepsInv(r, s, after);
    EffectiveLowersWork(r, s, after);
    var t := Run(r, s, after);
    if !t.phase.Ended? {
      var c := NeverStuck(r, t);
    }
  }

  /** A relay that has ended after both sources did, without a failure, has
      delivered everything. */
  lemma EndedDelivers(r: Request, s: State)
    requires Inv(r, s)
    ensures s.phase.Ended? && s.up.eof && NoneFailed(s) ==> s.up.received == s.up.sent && s.down.received == s.down.sent
  {}

  /** If moreover no read or write fails, before or after that point, every byte
      has then been delivered both ways. */
  lemma EverythingDelivered(r: Request, before: seq<Choice>, after: seq<Choice>)
    requires var s := Run(r, START, before); BothEnded(s) && NoneFailed(s) && Effective(r, s, after)
    requires AllClean(after)
    ensures var s := Run(r, START, before);
            var t := Run(r, s, after);
            (forall c | Clean(c) :: Do(r, t, c) == t) ==>
              && t.up.received == t.up.sent == s.up.sent && t.down.received == t.down.sent == s.down.sent
  {
    var s := Run(r, START, before);
    AlwaysEnds(r, before, after);
    RunKeepsInv(r, START, before);
    RunKeepsInv(r, s, after);
    EffectiveLowersWork(r, s, after);
    EndedDelivers(r, Run(r, s, after));
  }
}
