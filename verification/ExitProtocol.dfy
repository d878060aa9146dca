/** How one child's output is drained, the child reaped and its exit status
    sent, while the request loop may signal it: the goroutines of startProcess,
    wait, signal and hangup as interleaved steps (sshserver/process_linux.go,
    sshserver/server.go). A run is a sequence of scheduler choices; a choice
    that is not enabled changes nothing. */
module ExitProtocol {
  import opened Wrappers
  import opened Base64

  /** One output of the child and its copier. open: some process still holds
      the write end; buf: read from the pipe, not yet written to the channel. */
  datatype Stream = Stream(produced: Bytes, open: bool, taken: nat, buf: Bytes, delivered: Bytes, done: bool)

  datatype Status = Exited(code: nat) | Signaled(signal: nat) | WaitFailed

  datatype Child = Running | Zombie(status: Status) | Reaped(status: Status)

  datatype Waiter = Draining | Reaping | Storing | Sending | Closing | Finished

  /** The request loop. Deciding means exited was loaded as false, at a moment
      when the log had `at` events, and the kill is still to come. */
  datatype Handler = Serving | Deciding(signal: nat, at: nat, last: bool) | Ending | Ended

  datatype Event = CopyDone(i: nat) | Reap | StoreExited | Loaded(exited: bool)
                 | Kill(signal: nat, at: nat) | ExitStatus(code: nat, channelOpen: bool)

  datatype State = State(streams: seq<Stream>, child: Child, exited: bool, channelOpen: bool,
                         waiter: Waiter, handler: Handler, log: seq<Event>)

  datatype Choice =
    | Produce(i: nat, bytes: Bytes)
    | CloseWriteEnds(i: nat)
    | ReadChunk(i: nat, n: nat)
    | WriteChunk(i: nat, n: nat)
    | CopyEof(i: nat)
    | CopyError(i: nat)
    | ChildExits(status: Status)
    | WaitCopies
    | WaitChild
    | Store
    | SendStatus
    | WaiterCloses
    | SignalLoad(signal: nat)
    | HangupLoad
    | DoKill
    | HandlerCloses
    | PeerCloses

  const SIGHUP: nat := 1

  /** wait's result for what cmd.Wait reported. */
  function ExitCode(status: Status): nat {
    match status
    case Exited(code) => code
    case Signaled(signal) => 128 + signal
    case WaitFailed => 255
  }

  const NEW_STREAM := Stream([], true, 0, [], [], false)

  /** After startProcess: one tracked output with a terminal, else two. */
  function Started(withPty: bool): State {
    State(if withPty then [NEW_STREAM] else [NEW_STREAM, NEW_STREAM],
          Running, false, true, Draining, Serving, [])
  }

  predicate AllDone(s: State) {
    forall i | 0 <= i < |s.streams| :: s.streams[i].done
  }

  function Advance(t: Stream, channelOpen: bool, c: Choice): Stream {
    match c
    case Produce(_, bytes) => if t.open then t.(produced := t.produced + bytes) else t
    case CloseWriteEnds(_) => t.(open := false)
    case ReadChunk(_, n) =>
      if !t.done && t.buf == [] && t.taken + n <= |t.produced|
      then t.(buf := t.produced[t.taken..t.taken + n], taken := t.taken + n) else t
    case WriteChunk(_, n) =>
      if !t.done && channelOpen && n <= |t.buf|
      then t.(buf := t.buf[n..], delivered := t.delivered + t.buf[..n]) else t
    case CopyEof(_) =>
      if !t.done && t.buf == [] && t.taken == |t.produced| && !t.open then t.(done := true) else t
    case CopyError(_) => if !t.done && !channelOpen then t.(done := true) else t
    case _ => t
  }

  function StreamStep(s: State, i: nat, c: Choice): State
    requires i < |s.streams|
  {
    var t := Advance(s.streams[i], s.channelOpen, c);
    s.(streams := s.streams[i := t],
       log := if t.done && !s.streams[i].done then s.log + [CopyDone(i)] else s.log)
  }

  function WaiterStep(s: State, c: Choice): State {
    match c
    case WaitCopies => if s.waiter.Draining? && AllDone(s) then s.(waiter := Reaping) else s
    case WaitChild =>
      if s.waiter.Reaping? && s.child.Zombie?
      then s.(waiter := Storing, child := Reaped(s.child.status), log := s.log + [Reap]) else s
    case Store =>
      if s.waiter.Storing? then s.(waiter := Sending, exited := true, log := s.log + [StoreExited]) else s
    case SendStatus =>
      if s.waiter.Sending? && s.child.Reaped?
      then s.(waiter := Closing, log := s.log + [ExitStatus(ExitCode(s.child.status), s.channelOpen)]) else s
    case WaiterCloses =>
      if s.waiter.Closing? then s.(waiter := Finished, channelOpen := false) else s
    case _ => s
  }

  function HandlerStep(s: State, c: Choice): State {
    match c
    case SignalLoad(signal) =>
      if !s.handler.Serving? then s
      else if s.exited then s.(log := s.log + [Loaded(true)])
      else s.(handler := Deciding(signal, |s.log|, false), log := s.log + [Loaded(false)])
    case HangupLoad =>
      if !s.handler.Serving? then s
      else if s.exited then s.(handler := Ending, log := s.log + [Loaded(true)])
      else s.(handler := Deciding(SIGHUP, |s.log|, true), log := s.log + [Loaded(false)])
    case DoKill =>
      if s.handler.Deciding?
      then s.(handler := if s.handler.last then Ending else Serving,
              log := s.log + [Kill(s.handler.signal, s.handler.at)])
      else s
    case HandlerCloses =>
      if s.handler.Ending? then s.(handler := Ended, channelOpen := false) else s
    case _ => s
  }

  function Do(s: State, c: Choice): State {
    match c
    case ChildExits(status) => if s.child.Running? then s.(child := Zombie(status)) else s
    case PeerCloses => s.(channelOpen := false)
    case WaitCopies => WaiterStep(s, c)
    case WaitChild => WaiterStep(s, c)
    case Store => WaiterStep(s, c)
    case SendStatus => WaiterStep(s, c)
    case WaiterCloses => WaiterStep(s, c)
    case SignalLoad(_) => HandlerStep(s, c)
    case HangupLoad => HandlerStep(s, c)
    case DoKill => HandlerStep(s, c)
    case HandlerCloses => HandlerStep(s, c)
    case _ => if c.i < |s.streams| then StreamStep(s, c.i, c) else s
  }

  function Run(s: State, choices: seq<Choice>): State
    decreases |choices|
  {
    if choices == [] then s else Run(Do(s, choices[0]), choices[1..])
  }

  // ----- the invariant -----

  predicate DataOk(t: Stream, channelOpen: bool) {
    && t.taken <= |t.produced|
    && t.delivered + t.buf == t.produced[..t.taken]
    && (t.done && channelOpen ==> t.delivered == t.produced && !t.open)
  }

  predicate StreamOk(s: State, i: nat)
    requires i < |s.streams|
  {
    DataOk(s.streams[i], s.channelOpen) && (s.streams[i].done <==> CopyDone(i) in s.log)
  }

  predicate Drained(s: State) {
    forall i | 0 <= i < |s.streams| :: CopyDone(i) in s.log
  }

  predicate Complete(s: State) {
    forall i | 0 <= i < |s.streams| :: s.streams[i].delivered == s.streams[i].produced && !s.streams[i].open
  }

  predicate IsStatus(e: Event) {
    e.ExitStatus?
  }

  /** Where the waiter is decides which of its events the log holds. */
  predicate WaiterOk(s: State) {
    && (s.waiter.Draining? || AllDone(s))
    && (Reap in s.log <==> !s.waiter.Draining? && !s.waiter.Reaping?)
    && (s.child.Reaped? <==> Reap in s.log)
    && (StoreExited in s.log <==> s.waiter.Sending? || s.waiter.Closing? || s.waiter.Finished?)
    && (s.exited <==> StoreExited in s.log)
    && (s.waiter.Finished? ==> !s.channelOpen)
    && ((exists p :: 0 <= p < |s.log| && IsStatus(s.log[p])) <==> s.waiter.Closing? || s.waiter.Finished?)
  }

  /** The exit-status event at p comes after the ends of all copiers, the
      reaping and the store, with the child's code. */
  predicate StatusAt(s: State, p: nat)
    requires p < |s.log| && IsStatus(s.log[p])
  {
    && Reap in s.log[..p] && StoreExited in s.log[..p]
    && (forall i | 0 <= i < |s.streams| :: CopyDone(i) in s.log[..p])
    && s.child.Reaped? && s.log[p].code == ExitCode(s.child.status)
    && (s.log[p].channelOpen ==> Complete(s))
  }

  /** Wherever one stands, it is the only one. */
  predicate StatusOk(s: State) {
    && (forall p | 0 <= p < |s.log| && IsStatus(s.log[p]) :: StatusAt(s, p))
    && (forall p, q | 0 <= p < q < |s.log| && IsStatus(s.log[p]) :: !IsStatus(s.log[q]))
  }

  /** Every kill was decided on a load that no store of exited came before. */
  predicate KillsOk(s: State) {
    && (forall p | 0 <= p < |s.log| && s.log[p].Kill? ::
          && s.log[p].at < p && s.log[s.log[p].at] == Loaded(false)
          && StoreExited !in s.log[..s.log[p].at])
    && (s.handler.Deciding? ==>
          && s.handler.at < |s.log| && s.log[s.handler.at] == Loaded(false)
          && StoreExited !in s.log[..s.handler.at])
  }

  predicate Inv(s: State) {
    && (forall i | 0 <= i < |s.streams| :: StreamOk(s, i))
    && WaiterOk(s) && StatusOk(s) && KillsOk(s)
  }

  lemma StatusKept(s: State, t: State)
    requires StatusOk(s) && s.log <= t.log && |t.streams| == |s.streams|
    requires forall p | |s.log| <= p < |t.log| :: !IsStatus(t.log[p])
    requires s.child.Reaped? ==> t.child == s.child
    requires Complete(s) ==> Complete(t)
    ensures StatusOk(t)
  {
    forall p | 0 <= p < |t.log| && IsStatus(t.log[p])
      ensures p < |s.log| && t.log[p] == s.log[p] && StatusAt(t, p)
    {
      assert StatusAt(s, p) && t.log[..p] == s.log[..p];
    }
  }

  lemma KillsKept(s: State, t: State)
    requires KillsOk(s) && s.log <= t.log && t.handler == s.handler
    requires forall p | |s.log| <= p < |t.log| :: !t.log[p].Kill?
    ensures KillsOk(t)
  {
    assert forall p | 0 <= p <= |s.log| :: t.log[..p] == s.log[..p];
  }

  lemma StreamsKept(s: State, t: State)
    requires (forall i | 0 <= i < |s.streams| :: StreamOk(s, i)) && t.streams == s.streams
    requires t.log == s.log || (exists e: Event :: t.log == s.log + [e] && !e.CopyDone?)
    requires t.channelOpen ==> s.channelOpen
    ensures forall i | 0 <= i < |t.streams| :: StreamOk(t, i)
  {
    forall i | 0 <= i < |t.streams| ensures StreamOk(t, i) {
      assert StreamOk(s, i);
    }
  }

  lemma AdvanceNeverUndoes(t: Stream, channelOpen: bool, c: Choice)
    requires DataOk(t, channelOpen)
    ensures t.done ==> Advance(t, channelOpen, c).done
    ensures t.delivered == t.produced && !t.open ==>
              var u := Advance(t, channelOpen, c); u.delivered == u.produced && !u.open
  {
    if t.delivered == t.produced && !t.open {
      assert |t.delivered| + |t.buf| == t.taken;
      assert t.delivered + [] == t.delivered && t.buf[..0] == [];
    }
  }

  lemma AdvanceKeepsData(t: Stream, channelOpen: bool, c: Choice)
    requires DataOk(t, channelOpen)
    ensures DataOk(Advance(t, channelOpen, c), channelOpen)
  {
    match c
    case Produce(_, bytes) =>
      assert (t.produced + bytes)[..t.taken] == t.produced[..t.taken];
    case ReadChunk(_, n) =>
      if !t.done && t.buf == [] && t.taken + n <= |t.produced| {
        assert t.delivered + [] == t.delivered;
        assert t.produced[..t.taken] + t.produced[t.taken..t.taken + n] == t.produced[..t.taken + n];
      }
    case WriteChunk(_, n) =>
      if !t.done && channelOpen && n <= |t.buf| {
        assert t.delivered + t.buf[..n] + t.buf[n..] == t.delivered + t.buf;
      }
    case CopyEof(_) =>
      assert t.produced[..|t.produced|] == t.produced && t.delivered + [] == t.delivered;
    case _ =>
  }

  lemma StreamStepKeepsStreams(s: State, i: nat, c: Choice)
    requires Inv(s) && i < |s.streams|
    ensures var t := StreamStep(s, i, c);
            && |t.streams| == |s.streams| && t.log[..|s.log|] == s.log
            && (forall j | 0 <= j < |t.streams| :: StreamOk(t, j))
            && (Complete(s) ==> Complete(t))
            && (AllDone(s) ==> AllDone(t))
  {
    assert StreamOk(s, i);
    AdvanceKeepsData(s.streams[i], s.channelOpen, c);
    AdvanceNeverUndoes(s.streams[i], s.channelOpen, c);
    forall j | 0 <= j < |s.streams| ensures StreamOk(StreamStep(s, i, c), j) {
      assert StreamOk(s, j);
    }
  }

  lemma StreamKeepsInv(s: State, i: nat, c: Choice)
    requires Inv(s) && i < |s.streams|
    ensures Inv(StreamStep(s, i, c))
  {
    var t := StreamStep(s, i, c);
    StreamStepKeepsStreams(s, i, c);
    StatusKept(s, t);
    KillsKept(s, t);
    assert forall p | 0 <= p < |t.log| && IsStatus(t.log[p]) :: p < |s.log| && IsStatus(s.log[p]);
  }

  /** Copiers have finished by the time the waiter goes on, and their events are in the log. */
  lemma DoneMeansLogged(s: State)
    requires Inv(s) && AllDone(s)
    ensures Drained(s) && (s.channelOpen ==> Complete(s))
  {
    forall i | 0 <= i < |s.streams| ensures CopyDone(i) in s.log {
      assert StreamOk(s, i);
    }
    if s.channelOpen {
      forall i | 0 <= i < |s.streams|
        ensures s.streams[i].delivered == s.streams[i].produced && !s.streams[i].open
      {
        assert StreamOk(s, i);
      }
    }
  }

  lemma StatusAppended(s: State, t: State)
    requires s.child.Reaped? && Reap in s.log && StoreExited in s.log && Drained(s)
    requires forall p | 0 <= p < |s.log| :: !IsStatus(s.log[p])
    requires s.channelOpen ==> Complete(s)
    requires t.log == s.log + [ExitStatus(ExitCode(s.child.status), s.channelOpen)]
    requires t.child == s.child && t.streams == s.streams
    ensures StatusOk(t)
  {
    assert t.log[..|s.log|] == s.log && StatusAt(t, |s.log|);
    assert forall p | 0 <= p < |s.log| :: t.log[p] == s.log[p] && !IsStatus(t.log[p]);
  }

  lemma SendKeepsInv(s: State)
    requires Inv(s)
    ensures Inv(WaiterStep(s, SendStatus))
  {
    var t := WaiterStep(s, SendStatus);
    if t != s {
      DoneMeansLogged(s);
      StreamsKept(s, t);
      KillsKept(s, t);
      StatusAppended(s, t);
      assert IsStatus(t.log[|s.log|]);
    }
  }

  lemma WaiterKeepsOwn(s: State, c: Choice)
    requires WaiterOk(s) && !c.SendStatus?
    ensures WaiterOk(WaiterStep(s, c))
  {
    var t := WaiterStep(s, c);
    assert forall p | 0 <= p < |t.log| && IsStatus(t.log[p]) :: p < |s.log| && IsStatus(s.log[p]);
    assert forall p | 0 <= p < |s.log| :: t.log[p] == s.log[p];
  }

  lemma WaiterKeepsInv(s: State, c: Choice)
    requires Inv(s)
    ensures Inv(WaiterStep(s, c))
  {
    if c.SendStatus? {
      SendKeepsInv(s);
    } else {
      var t := WaiterStep(s, c);
      StreamsKept(s, t);
      StatusKept(s, t);
      KillsKept(s, t);
      WaiterKeepsOwn(s, c);
    }
  }

  lemma HandlerKeepsKills(s: State, c: Choice)
    requires KillsOk(s) && (StoreExited in s.log ==> s.exited)
    ensures KillsOk(HandlerStep(s, c))
  {
    var t := HandlerStep(s, c);
    if t.log != s.log {
      KillsAppend(s, t, t.log[|s.log|]);
    }
  }

  lemma KillsAppend(s: State, t: State, e: Event)
    requires KillsOk(s) && t.log == s.log + [e]
    requires e.Kill? ==> s.handler.Deciding? && e.at == s.handler.at
    requires t.handler.Deciding? ==>
               || t.handler == s.handler
               || (t.handler.at == |s.log| && e == Loaded(false) && StoreExited !in s.log)
    ensures KillsOk(t)
  {
    assert forall p | 0 <= p < |s.log| :: t.log[p] == s.log[p];
    assert forall p | 0 <= p <= |s.log| :: t.log[..p] == s.log[..p];
    assert s.log[..|s.log|] == s.log;
  }

  lemma HandlerEffect(s: State, c: Choice)
    ensures var t := HandlerStep(s, c);
            && t == s.(handler := t.handler, log := t.log, channelOpen := t.channelOpen)
            && (t.channelOpen ==> s.channelOpen)
            && (t.log == s.log || exists e: Event :: t.log == s.log + [e] && (e.Loaded? || e.Kill?))
  {}

  /** A step that leaves the waiter's data alone and logs nothing of its. */
  lemma WaiterUndisturbed(s: State, t: State)
    requires WaiterOk(s) && t.waiter == s.waiter && t.child == s.child && t.exited == s.exited && t.streams == s.streams
    requires t.channelOpen ==> s.channelOpen
    requires t.log == s.log || exists e: Event :: t.log == s.log + [e] && (e.Loaded? || e.Kill?)
    ensures WaiterOk(t)
  {
    forall p | 0 <= p < |t.log| && IsStatus(t.log[p]) ensures p < |s.log| && IsStatus(s.log[p]) {}
  }

  lemma HandlerKeepsInv(s: State, c: Choice)
    requires Inv(s)
    ensures Inv(HandlerStep(s, c))
  {
    var t := HandlerStep(s, c);
    HandlerEffect(s, c);
    StreamsKept(s, t);
    StatusKept(s, t);
    HandlerKeepsKills(s, c);
    WaiterUndisturbed(s, t);
  }

  lemma DoKeepsInv(s: State, c: Choice)
    requires Inv(s)
    ensures Inv(Do(s, c))
  {
    WaiterKeepsInv(s, c);
    HandlerKeepsInv(s, c);
    if c.Produce? || c.CloseWriteEnds? || c.ReadChunk? || c.WriteChunk? || c.CopyEof? || c.CopyError? {
      if c.i < |s.streams| { StreamKeepsInv(s, c.i, c); }
    } else if c.ChildExits? || c.PeerCloses? {
      StreamsKept(s, Do(s, c));
      StatusKept(s, Do(s, c));
      KillsKept(s, Do(s, c));
    }
  }

  lemma {:induction false} RunKeepsInv(s: State, choices: seq<Choice>)
    requires Inv(s)
    ensures Inv(Run(s, choices)) && |Run(s, choices).streams| == |s.streams|
    decreases |choices|
  {
    if choices != [] {
      DoKeepsInv(s, choices[0]);
      DoKeepsCount(s, choices[0]);
      RunKeepsInv(Do(s, choices[0]), choices[1..]);
    }
  }

  lemma DoKeepsCount(s: State, c: Choice)
    ensures |Do(s, c).streams| == |s.streams|
  {}

  lemma StartedOk(withPty: bool)
    ensures Inv(Started(withPty))
  {}

  // ----- the theorems: safety -----

  /** In every interleaving at most one exit-status is sent. It comes after the
      end of every tracked copier, the reaping and the store of exited; it
      carries the reaped child's code; and if the channel was still open then
      every byte the child wrote had been delivered. */
  lemma ExitStatusOnceAndLast(withPty: bool, choices: seq<Choice>, p: nat)
    requires var log := Run(Started(withPty), choices).log; p < |log| && log[p].ExitStatus?
    ensures var s := Run(Started(withPty), choices);
            && (forall q | 0 <= q < |s.log| && s.log[q].ExitStatus? :: q == p)
            && (forall i | 0 <= i < (if withPty then 1 else 2) :: CopyDone(i) in s.log[..p])
            && Reap in s.log[..p] && StoreExited in s.log[..p]
            && s.child.Reaped? && s.log[p].code == ExitCode(s.child.status)
            && (s.log[p].channelOpen ==> Complete(s))
  {
    StartedOk(withPty);
    RunKeepsInv(Started(withPty), choices);
    var s := Run(Started(withPty), choices);
    assert IsStatus(s.log[p]) && StatusAt(s, p);
    assert forall q | 0 <= q < |s.log| && s.log[q].ExitStatus? :: IsStatus(s.log[q]);
  }

  /** A signal or hangup whose load of exited follows the store kills nothing:
      each kill goes back to a load, earlier in the log, that precedes the store. */
  lemma NoKillDecidedAfterStore(withPty: bool, choices: seq<Choice>, p: nat)
    requires var log := Run(Started(withPty), choices).log; p < |log| && log[p].Kill?
    ensures var log := Run(Started(withPty), choices).log;
            log[p].at < p && log[log[p].at] == Loaded(false) && StoreExited !in log[..log[p].at]
  {
    StartedOk(withPty);
    RunKeepsInv(Started(withPty), choices);
  }

  /** What each copier delivers is always a prefix of what the child wrote. */
  lemma DeliveredIsPrefix(withPty: bool, choices: seq<Choice>, i: nat)
    requires i < (if withPty then 1 else 2)
    ensures var s := Run(Started(withPty), choices);
            i < |s.streams| && s.streams[i].delivered <= s.streams[i].produced
  {
    StartedOk(withPty);
    RunKeepsInv(Started(withPty), choices);
    var s := Run(Started(withPty), choices);
    assert StreamOk(s, i);
  }

  /** The window between reaping and the store is real: a kill can follow the
      reaping when its load came before the store. */
  lemma KillAfterReapIsPossible()
    ensures exists choices: seq<Choice>, p: nat ::
              var log := Run(Started(true), choices).log;
              p < |log| && log[p].Kill? && Reap in log[..p]
  {
    var drain, reap := [ChildExits(Exited(0)), CloseWriteEnds(0), CopyEof(0)], [WaitCopies, WaitChild];
    var kill := [SignalLoad(15), DoKill];
    RunConcat(Started(true), drain, reap + kill);
    RunConcat(Run(Started(true), drain), reap, kill);
    DrainRun(drain);
    ReapRun(reap);
    KillRun(kill);
    var log := Run(REAPED, kill).log;
    assert log[..3][1] == Reap && log[3].Kill?;
    assert Run(Started(true), drain + (reap + kill)).log == log;
  }

  const DRAINED := State([NEW_STREAM.(open := false, done := true)], Zombie(Exited(0)), false, true, Draining, Serving,
                         [CopyDone(0)])
  const REAPED := DRAINED.(child := Reaped(Exited(0)), waiter := Storing, log := [CopyDone(0), Reap])

  lemma ReapRun(c: seq<Choice>)
    requires c == [WaitCopies, WaitChild]
    ensures Run(DRAINED, c) == REAPED
  {
    RunTwo(DRAINED, c);
  }

  lemma KillRun(c: seq<Choice>)
    requires c == [SignalLoad(15), DoKill]
    ensures Run(REAPED, c).log == [CopyDone(0), Reap, Loaded(false), Kill(15, 2)]
  {
    RunTwo(REAPED, c);
  }

  lemma DrainRun(c: seq<Choice>)
    requires c == [ChildExits(Exited(0)), CloseWriteEnds(0), CopyEof(0)]
    ensures Run(Started(true), c) == DRAINED
  {
    assert c == c[..2] + [CopyEof(0)];
    RunConcat(Started(true), c[..2], [CopyEof(0)]);
    RunTwo(Started(true), c[..2]);
    assert Run(Started(true), c) == Do(Run(Started(true), c[..2]), CopyEof(0));
  }

  lemma RunTwo(s: State, c: seq<Choice>)
    requires |c| == 2
    ensures Run(s, c) == Do(Do(s, c[0]), c[1])
  {
    var t := Do(s, c[0]);
    assert Run(s, c) == Run(t, c[1..]);
    assert c[1..][1..] == [];
    assert Run(t, c[1..]) == Run(Do(t, c[1]), []);
  }

  lemma {:induction false} RunConcat(s: State, a: seq<Choice>, b: seq<Choice>)
    ensures Run(s, a + b) == Run(Run(s, a), b)
    decreases |a|
  {
    if a == [] {
      assert a + b == b;
    } else {
      assert (a + b)[1..] == a[1..] + b;
      RunConcat(Do(s, a[0]), a[1..], b);
    }
  }

  // ----- what the child ended with, and who killed it -----

  /** How the child ends: the first exit that happens. */
  function FirstExit(choices: seq<Choice>): Option<Status>
    decreases |choices|
  {
    if choices == [] then None
    else if choices[0].ChildExits? then Some(choices[0].status) else FirstExit(choices[1..])
  }

  lemma {:induction false} ReapedAsEnded(s: State, choices: seq<Choice>)
    ensures var t := Run(s, choices);
            match s.child
            case Running =>
              (t.child.Running? <==> FirstExit(choices).None?)
              && (!t.child.Running? ==> FirstExit(choices) == Some(t.child.status))
            case _ => !t.child.Running? && t.child.status == s.child.status
    decreases |choices|
  {
    if choices != [] {
      ReapedAsEnded(Do(s, choices[0]), choices[1..]);
    }
  }

  /** The code sent is the one the child exited with, 128 plus the signal that
      ended it, or 255 when waiting for it failed. */
  lemma CodeIsTheChilds(withPty: bool, choices: seq<Choice>, p: nat)
    requires var log := Run(Started(withPty), choices).log; p < |log| && log[p].ExitStatus?
    ensures FirstExit(choices).Some?
    ensures Run(Started(withPty), choices).log[p].code ==
            match FirstExit(choices).value
            case Exited(code) => code
            case Signaled(signal) => 128 + signal
            case WaitFailed => 255
  {
    ExitStatusOnceAndLast(withPty, choices, p);
    ReapedAsEnded(Started(withPty), choices);
  }

  /** Somebody asked for this signal: a request for it, or the hangup at the end. */
  ghost predicate Asked(choices: seq<Choice>, signal: nat) {
    SignalLoad(signal) in choices || (signal == 1 && HangupLoad in choices)
  }

  ghost predicate AllAsked(s: State, choices: seq<Choice>) {
    && (forall p | 0 <= p < |s.log| && s.log[p].Kill? :: Asked(choices, s.log[p].signal))
    && (s.handler.Deciding? ==> Asked(choices, s.handler.signal))
  }

  lemma AskedStep(s: State, before: seq<Choice>, c: Choice)
    requires AllAsked(s, before)
    ensures AllAsked(Do(s, c), before + [c])
  {
    var t := Do(s, c);
    assert forall x | x in before :: x in before + [c];
    assert forall p | 0 <= p < |s.log| :: t.log[p] == s.log[p];
    assert c in before + [c];
  }

  lemma {:induction false} AskedRun(s: State, before: seq<Choice>, choices: seq<Choice>)
    requires AllAsked(s, before)
    ensures AllAsked(Run(s, choices), before + choices)
    decreases |choices|
  {
    if choices == [] {
      assert before + choices == before;
    } else {
      AskedStep(s, before, choices[0]);
      AskedRun(Do(s, choices[0]), before + [choices[0]], choices[1..]);
      assert before + choices == before + [choices[0]] + choices[1..];
    }
  }

  /** The child is killed with no signal but one that was asked for. */
  lemma KillsWereAsked(withPty: bool, choices: seq<Choice>, p: nat)
    requires var log := Run(Started(withPty), choices).log; p < |log| && log[p].Kill?
    ensures var signal := Run(Started(withPty), choices).log[p].signal;
            SignalLoad(signal) in choices || (signal == 1 && HangupLoad in choices)
  {
    AskedRun(Started(withPty), [], choices);
    assert [] + choices == choices;
  }

  /** A signal that is asked for before the store of exited is sent, one that is
      asked for after it is not; the same goes for the hangup, after which the
      request loop ends. */
  lemma SignalsGetThrough(s: State, signal: nat, c: seq<Choice>, d: seq<Choice>)
    requires s.handler.Serving? && c == [SignalLoad(signal), DoKill] && d == [HangupLoad, DoKill]
    ensures Run(s, c).handler.Serving? && Run(s, d).handler.Ending?
    ensures Run(s, c).log == s.log + if s.exited then [Loaded(true)] else [Loaded(false), Kill(signal, |s.log|)]
    ensures Run(s, d).log == s.log + if s.exited then [Loaded(true)] else [Loaded(false), Kill(1, |s.log|)]
  {
    RunTwo(s, c);
    RunTwo(s, d);
    assert s.log + [Loaded(false)] + [Kill(signal, |s.log|)] == s.log + [Loaded(false), Kill(signal, |s.log|)];
    assert s.log + [Loaded(false)] + [Kill(1, |s.log|)] == s.log + [Loaded(false), Kill(1, |s.log|)];
  }

  // ----- progress -----

  /** Every output a child may write and every way it may end has a run to the
      point from which the theorem below starts. */
  lemma ChildCanSpeak(bytes: Bytes, status: Status) returns (choices: seq<Choice>)
    ensures var s := Run(Started(true), choices);
            ChildGone(s) && s.child == Zombie(status) && s.channelOpen
            && |s.streams| == 1 && s.streams[0].produced == bytes
  {
    var a, b := [Produce(0, bytes), CloseWriteEnds(0)], [ChildExits(status)];
    choices := a + b;
    RunConcat(Started(true), a, b);
    RunTwo(Started(true), a);
    assert [] + bytes == bytes;
    assert b[1..] == [];
  }

  /** The steps of the copiers and the waiter. */
  predicate Drains(c: Choice) {
    || c.ReadChunk? || c.WriteChunk? || c.CopyEof? || c.CopyError?
    || c.WaitCopies? || c.WaitChild? || c.Store? || c.SendStatus? || c.WaiterCloses?
  }

  /** The child has exited and nothing holds a write end any more. */
  predicate ChildGone(s: State) {
    !s.child.Running? && forall i | 0 <= i < |s.streams| :: !s.streams[i].open
  }

  /** The bytes still to move, read ones counting once and unread ones twice,
      and the end of the copier. */
  function StreamWork(t: Stream): int {
    if t.done then 0 else 2 * (|t.produced| - t.taken) + |t.buf| + 1
  }

  function StreamsWork(ts: seq<Stream>): int {
    if ts == [] then 0 else StreamsWork(ts[..|ts| - 1]) + StreamWork(ts[|ts| - 1])
  }

  function WaiterRank(w: Waiter): nat {
    match w
    case Draining => 5
    case Reaping => 4
    case Storing => 3
    case Sending => 2
    case Closing => 1
    case Finished => 0
  }

  function Work(s: State): int {
    StreamsWork(s.streams) + WaiterRank(s.waiter)
  }

  /** The steps of copiers and waiter that do something. */
  function DrainSteps(s: State, choices: seq<Choice>): nat
    decreases |choices|
  {
    if choices == [] then 0
    else
      (if Drains(choices[0]) && Do(s, choices[0]) != s then 1 else 0)
      + DrainSteps(Do(s, choices[0]), choices[1..])
  }

  lemma {:induction false} WorkReplaced(ts: seq<Stream>, i: nat, t: Stream)
    requires i < |ts|
    ensures StreamsWork(ts[i := t]) == StreamsWork(ts) - StreamWork(ts[i]) + StreamWork(t)
  {
    var last := |ts| - 1;
    if i == last {
      assert ts[i := t][..last] == ts[..last];
    } else {
      assert ts[i := t][..last] == ts[..last][i := t];
      WorkReplaced(ts[..last], i, t);
    }
  }

  lemma {:induction false} StreamsWorkBound(ts: seq<Stream>)
    requires forall i | 0 <= i < |ts| :: ts[i].taken <= |ts[i].produced|
    ensures StreamsWork(ts) >= 0
  {
    if ts != [] {
      StreamsWorkBound(ts[..|ts| - 1]);
    }
  }

  lemma WorkNotNegative(s: State)
    requires forall i | 0 <= i < |s.streams| :: StreamOk(s, i)
    ensures Work(s) >= 0
  {
    forall i | 0 <= i < |s.streams| ensures s.streams[i].taken <= |s.streams[i].produced| {
      assert StreamOk(s, i);
    }
    StreamsWorkBound(s.streams);
  }

  lemma AdvanceLowersWork(t: Stream, channelOpen: bool, c: Choice)
    requires DataOk(t, channelOpen) && !t.open
    ensures var u := Advance(t, channelOpen, c);
            && !u.open && StreamWork(u) <= StreamWork(t)
            && (u != t ==> StreamWork(u) < StreamWork(t))
  {
    assert t.buf[0..] == t.buf && t.delivered + t.buf[..0] == t.delivered;
    if c.ReadChunk? && t.buf == [] && c.n == 0 {
      assert t.produced[t.taken..t.taken] == t.buf;
    }
  }

  lemma StreamStepWorks(s: State, i: nat, c: Choice)
    requires Inv(s) && ChildGone(s) && i < |s.streams|
    ensures var t := StreamStep(s, i, c);
            && ChildGone(t) && Work(t) <= Work(s) && (t != s ==> Work(t) < Work(s))
  {
    var u := Advance(s.streams[i], s.channelOpen, c);
    assert StreamOk(s, i);
    AdvanceLowersWork(s.streams[i], s.channelOpen, c);
    WorkReplaced(s.streams, i, u);
    if u == s.streams[i] {
      assert s.streams[i := u] == s.streams;
    }
  }

  /** Once the child is gone no step adds work, and those of copiers and waiter
      that do something take some away. */
  lemma StepWorks(s: State, c: Choice)
    requires Inv(s) && ChildGone(s)
    ensures var t := Do(s, c);
            && ChildGone(t) && Work(t) <= Work(s) && (Drains(c) && t != s ==> Work(t) < Work(s))
  {
    if c.Produce? || c.CloseWriteEnds? || c.ReadChunk? || c.WriteChunk? || c.CopyEof? || c.CopyError? {
      if c.i < |s.streams| { StreamStepWorks(s, c.i, c); }
    }
  }

  lemma {:induction false} DrainStepsBound(s: State, choices: seq<Choice>)
    requires Inv(s) && ChildGone(s)
    ensures ChildGone(Run(s, choices)) && Work(Run(s, choices)) + DrainSteps(s, choices) <= Work(s)
    decreases |choices|
  {
    if choices != [] {
      StepWorks(s, choices[0]);
      DoKeepsInv(s, choices[0]);
      DrainStepsBound(Do(s, choices[0]), choices[1..]);
    }
  }

  lemma NextCopy(s: State, i: nat) returns (c: Choice)
    requires Inv(s) && ChildGone(s) && i < |s.streams| && !s.streams[i].done
    ensures Drains(c) && Do(s, c) != s
  {
    var t := s.streams[i];
    assert StreamOk(s, i);
    if t.buf != [] {
      c := if s.channelOpen then WriteChunk(i, |t.buf|) else CopyError(i);
    } else if t.taken < |t.produced| {
      c := ReadChunk(i, 1);
    } else {
      c := CopyEof(i);
    }
    assert Advance(t, s.channelOpen, c) != t by {
      assert c.WriteChunk? ==> Advance(t, s.channelOpen, c).buf == [];
      assert c.ReadChunk? ==> Advance(t, s.channelOpen, c).taken == t.taken + 1;
    }
    assert Do(s, c).streams[i] == Advance(t, s.channelOpen, c);
  }

  /** Once the child is gone, copiers and waiter have a step to take until the
      waiter has finished. */
  lemma NeverStuck(s: State) returns (c: Choice)
    requires Inv(s) && ChildGone(s) && !s.waiter.Finished?
    ensures Drains(c) && Do(s, c) != s
  {
    match s.waiter
    case Draining =>
      if AllDone(s) {
        c := WaitCopies;
      } else {
        var i :| 0 <= i < |s.streams| && !s.streams[i].done;
        c := NextCopy(s, i);
      }
    case Reaping => c := WaitChild;
    case Storing => c := Store;
    case Sending => c := SendStatus;
    case Closing => c := WaiterCloses;
  }

  /** Neither the peer nor the request loop closes the channel. */
  predicate NoneCloses(choices: seq<Choice>) {
    forall i | 0 <= i < |choices| :: !choices[i].PeerCloses? && !choices[i].HandlerCloses?
  }

  /** The channel is open until the waiter closes it, and the status went out on
      an open channel. */
  predicate Undisturbed(s: State) {
    && (s.channelOpen || s.waiter.Finished?)
    && forall p | 0 <= p < |s.log| && IsStatus(s.log[p]) :: s.log[p].channelOpen
  }

  lemma StepUndisturbed(s: State, c: Choice)
    requires Undisturbed(s) && !c.PeerCloses? && !c.HandlerCloses?
    ensures Undisturbed(Do(s, c))
  {
    var t := Do(s, c);
    assert forall p | 0 <= p < |s.log| :: t.log[p] == s.log[p];
  }

  lemma {:induction false} RunUndisturbed(s: State, choices: seq<Choice>)
    requires Undisturbed(s) && NoneCloses(choices)
    ensures Undisturbed(Run(s, choices))
    decreases |choices|
  {
    if choices != [] {
      StepUndisturbed(s, choices[0]);
      RunUndisturbed(Do(s, choices[0]), choices[1..]);
    }
  }

  /** Take any run to a point where the child has exited and its write ends are
      closed. Whatever happens from there, signals, hangup and the peer closing
      the channel included, copiers and waiter do at most Work more steps, and
      when none of them has a step left the exit-status request has been made and
      the channel is closed. If nobody else ever closed the channel, the request
      was made on an open one and every byte the child wrote was delivered. */
  lemma ExitStatusSent(withPty: bool, before: seq<Choice>, after: seq<Choice>)
    requires ChildGone(Run(Started(withPty), before))
    ensures var s := Run(Started(withPty), before);
            var t := Run(s, after);
            && DrainSteps(s, after) <= Work(s)
            && ((forall c | Drains(c) :: Do(t, c) == t) ==>
                  && t.waiter.Finished? && !t.channelOpen
                  && (exists p :: 0 <= p < |t.log| && IsStatus(t.log[p]))
                  && (NoneCloses(before) && NoneCloses(after) ==>
                        Complete(t) && forall p | 0 <= p < |t.log| && IsStatus(t.log[p]) :: t.log[p].channelOpen))
  {
    var s := Run(Started(withPty), before);
    var t := Run(s, after);
    StartedOk(withPty);
    RunKeepsInv(Started(withPty), before);
    RunKeepsInv(s, after);
    DrainStepsBound(s, after);
    WorkNotNegative(t);
    if !t.waiter.Finished? {
      var c := NeverStuck(t);
    } else if NoneCloses(before) && NoneCloses(after) {
      RunUndisturbed(Started(withPty), before);
      RunUndisturbed(s, after);
      FinishedComplete(t);
    }
  }

  lemma FinishedComplete(t: State)
    requires WaiterOk(t) && StatusOk(t) && Undisturbed(t) && t.waiter.Finished?
    ensures Complete(t)
  {
    var p :| 0 <= p < |t.log| && IsStatus(t.log[p]);
    assert StatusAt(t, p);
  }
}
