/** The protocol between requests that use a model instance and writers that load,
    reload or unload it, as interleaved atomic steps of any number of threads. */
module UnloadProtocol {
  import opened Common
  import opened ModelVersionStatus

  // ---- state ----

  /** The compiled model and its queue of stream ids. "generation" tells apart the
      queues built one after another; "parameter" says whether the model was built with
      a dynamic batch size or shape. */
  datatype Parts =
    | Unusable
    | Built(config: int, parameter: bool, generation: nat, streams: nat, idle: set<nat>)

  datatype Stream = Stream(generation: nat, id: nat)

  datatype Result = SERVED | NOT_LOADED_YET | NOT_LOADED_ANYMORE | REJECTED | RELOAD_FAILED | REFUSED

  /** How a writer leaves the mutex. */
  datatype Outcome = Finished | Reloaded | ReloadFailed | Refused

  /** What a writer still has to do. The mutex is recursive, so the inner locks of
      nested calls do not show. */
  datatype Prog =
    | Mark(status: Status, next: Prog)
    | Poll(next: Prog)
    | Teardown(next: Prog)
    | Configure(config: Option<int>, next: Prog)
    | Build(parameter: bool, ok: Prog, fail: Prog)
    | Choose(yes: Prog, no: Prog)
    | TakeGuard(next: Prog)
    | Unlock(outcome: Outcome)

  /** What a writer has achieved so far; its steps do not depend on it. */
  datatype Phase =
    | Open
    | Marked
    | Drained
    | Failed
    | Ready(parameter: bool)
    | Live(parameter: bool, guard: bool)

  /** Where a thread is. "left" are the checkpoints left to waitForLoaded. */
  datatype Pc =
    | Acquire(left: nat, again: bool)
    | Check(left: nat, again: bool)
    | Release(left: nat, again: bool)
    | After(left: nat)
    | Wait(left: nat)
    | Final
    | Admitted(reloaded: bool)
    | Inferring
    | Returning
    | Leaving
    | Dropping(hasParameter: bool)
    | Locking(prog: Prog)
    | Writing(prog: Prog, phase: Phase)
    | Done(result: Result)

  /** "guard" is the unload guard, "stream" the stream id guard; "acquired" counts the
      guards that waitForLoaded has made. */
  datatype Thread = Thread(pc: Pc, guard: bool, stream: Option<Stream>, acquired: nat, checkpoints: nat)

  datatype State = State(
    status: Status,
    handles: int,
    owner: Option<nat>,
    config: int,
    parts: Parts,
    builds: nat,
    threads: seq<Thread>)

  // ---- the programs of the writers ----

  function Retire(permanent: bool, next: Prog): Prog {
    Mark(if permanent then UNLOADING_STATUS else LOADING_STATUS,
         Poll(Teardown(if permanent then Mark(END_STATUS, next) else next)))
  }

  function Cleanup(): Prog {
    Mark(FAILED_STATUS, Poll(Teardown(Unlock(Finished))))
  }

  function LoadImpl(config: Option<int>, parameter: bool, ok: Prog, fail: Prog): Prog {
    Configure(config, Build(parameter, Mark(AVAILABLE_STATUS, ok), Mark(FAILED_STATUS, fail)))
  }

  function Load(config: int): Prog {
    Mark(START_STATUS, Mark(LOADING_STATUS, LoadImpl(Some(config), false, Unlock(Finished), Unlock(Finished))))
  }

  /** The choice is whether the options of a custom loader have changed. */
  function Reload(config: Option<int>, parameter: bool, ok: Prog, fail: Prog): Prog {
    var load := LoadImpl(config, parameter, ok, fail);
    Mark(LOADING_STATUS, Poll(Choose(Retire(false, load), load)))
  }

  function Recover(): Prog {
    Retire(false, Reload(None, false, Unlock(ReloadFailed), Unlock(ReloadFailed)))
  }

  function FullReload(): Prog {
    Retire(false, Reload(None, true, TakeGuard(Unlock(Reloaded)), Recover()))
  }

  /** The reload that a request asks for, after it has dropped its guard. */
  function DynamicReload(hasParameter: bool): Prog {
    if hasParameter
    then Reload(None, true, TakeGuard(Unlock(Reloaded)), FullReload())
    else Unlock(Refused)
  }

  // ---- steps ----

  function Put(s: State, t: nat, th: Thread): State
    requires t < |s.threads|
  {
    s.(threads := s.threads[t := th])
  }

  function Move(s: State, t: nat, pc: Pc): State
    requires t < |s.threads|
  {
    Put(s, t, s.threads[t].(pc := pc))
  }

  function MakeGuard(s: State, t: nat, pc: Pc): State
    requires t < |s.threads|
  {
    Put(s, t, s.threads[t].(pc := pc, guard := true)).(handles := s.handles + 1)
  }

  function ResetGuard(s: State, t: nat, pc: Pc): State
    requires t < |s.threads|
  {
    Put(s, t, s.threads[t].(pc := pc, guard := false)).(handles := s.handles - 1)
  }

  function UnloadedResult(status: Status): Result {
    if status.state.Rank() > AVAILABLE.Rank() then NOT_LOADED_ANYMORE else NOT_LOADED_YET
  }

  /** waitForLoaded. The timed wait on the condition variable may end at any time. */
  predicate WaitStep(s: State, t: nat, s': State)
    requires t < |s.threads|
  {
    var th := s.threads[t];
    match th.pc
    case Acquire(left, again) =>
      s' == MakeGuard(Put(s, t, th.(acquired := th.acquired + 1)), t, Check(left, again))
    case Check(left, again) =>
      s' == Move(s, t, if s.status.state == AVAILABLE then Admitted(false) else Release(left, again))
    case Release(left, again) =>
      s' == ResetGuard(s, t, if again then After(left) else Wait(left))
    case After(left) =>
      s' == Move(s, t, if s.status.state.Rank() > AVAILABLE.Rank() then Done(NOT_LOADED_ANYMORE) else Wait(left))
    case Wait(left) =>
      s' == Move(s, t, if left == 0 then Final else Acquire(left - 1, true))
    case Final =>
      s' == Move(s, t, Done(UnloadedResult(s.status)))
    case _ => false
  }

  datatype Serve = Reject | TakeStream(id: nat) | AskReload(hasParameter: bool) | Finish | StartAsync

  /** A request that was admitted: validation, the stream id, the inference itself. An
      asynchronous start hands stream id and guard to a callback, a new thread. Of two
      guards the stream id guard is released first. */
  predicate ServeStep(s: State, t: nat, a: Serve, s': State)
    requires t < |s.threads|
  {
    var th := s.threads[t];
    match th.pc
    case Admitted(reloaded) =>
      (match a
       case Reject => s' == Move(s, t, Leaving)
       case AskReload(hasParameter) => !reloaded && s' == Move(s, t, Dropping(hasParameter))
       case TakeStream(id) =>
         && s.parts.Built? && id in s.parts.idle
         && s' == Put(s, t, th.(pc := Inferring, stream := Some(Stream(s.parts.generation, id))))
                  .(parts := s.parts.(idle := s.parts.idle - {id}))
       case _ => false)
    case Inferring =>
      (match a
       case Finish => s' == Move(s, t, Returning)
       case StartAsync =>
         var callback := Thread(Returning, th.guard, th.stream, 0, 0);
         s' == Put(s, t, th.(pc := Done(SERVED), guard := false, stream := None)).(
                 threads := s.threads[t := th.(pc := Done(SERVED), guard := false, stream := None)] + [callback])
       case _ => false)
    case Returning =>
      && a == Finish && th.stream.Some?
      && s' == Put(s, t, th.(pc := Leaving, stream := None)).(parts := Returned(s.parts, th.stream.value))
    case Leaving =>
      a == Finish && s' == ResetGuard(s, t, Done(SERVED))
    case Dropping(hasParameter) =>
      a == Finish && s' == ResetGuard(s, t, Locking(DynamicReload(hasParameter)))
    case _ => false
  }

  /** A stream id goes back to the queue it came from, if that queue still exists. */
  function Returned(parts: Parts, stream: Stream): Parts {
    if parts.Built? && parts.generation == stream.generation
    then parts.(idle := parts.idle + {stream.id})
    else parts
  }

  function Ids(n: nat): (r: set<nat>)
    ensures forall id: nat :: id in r <==> id < n
  {
    if n == 0 then {} else Ids(n - 1) + {n - 1}
  }

  datatype Choice = Go | Pick(yes: bool) | Succeed(streams: nat) | Fail

  /** What a step of a writer does to the instance. */
  predicate WriteStep(s: State, t: nat, a: Choice, s': State)
    requires t < |s.threads|
  {
    var th := s.threads[t];
    match th.pc
    case Locking(prog) =>
      a == Go && s.owner == None && s' == Move(s, t, Writing(prog, Open)).(owner := Some(t))
    case Writing(prog, phase) =>
      (match prog
       case Mark(status, next) =>
         a == Go && s' == Move(s, t, Writing(next, MarkedPhase(phase, status))).(status := status)
       case Poll(next) =>
         && a == Go && s.handles == 0
         && s' == Move(s, t, Writing(next, if phase == Marked then Drained else phase))
       case Teardown(next) =>
         a == Go && s' == Move(s, t, Writing(next, phase)).(parts := Unusable)
       case Configure(config, next) =>
         a == Go && s' == Move(s, t, Writing(next, phase)).(
                            config := if config.Some? then config.value else s.config, parts := Unusable)
       case Build(parameter, ok, fail) =>
         (match a
          case Succeed(streams) =>
            && streams > 0
            && s' == Move(s, t, Writing(ok, Ready(parameter))).(
                       parts := Built(s.config, parameter, s.builds, streams, Ids(streams)),
                       builds := s.builds + 1)
          case Fail => s' == Move(s, t, Writing(fail, Drained))
          case _ => false)
       case Choose(yes, no) =>
         a.Pick? && s' == Move(s, t, Writing(if a.yes then yes else no, phase))
       case TakeGuard(next) =>
         a == Go && s' == MakeGuard(s, t, Writing(next, if phase.Live? then phase.(guard := true) else phase))
       case Unlock(outcome) =>
         a == Go && s' == Move(s, t, Left(outcome)).(owner := None))
    case _ => false
  }

  function MarkedPhase(phase: Phase, status: Status): Phase {
    if status.state == AVAILABLE then (if phase.Ready? then Live(phase.parameter, false) else phase)
    else if phase == Open || phase == Marked || phase.Live? then Marked
    else if status == FAILED_STATUS then Failed
    else Drained
  }

  function Left(outcome: Outcome): Pc {
    match outcome
    case Finished => Done(SERVED)
    case Reloaded => Admitted(true)
    case ReloadFailed => Done(RELOAD_FAILED)
    case Refused => Done(REFUSED)
  }

  datatype Operation = RetireModel | CleanupFailedLoad | ReloadModel(config: int)

  function Program(op: Operation): Prog {
    match op
    case RetireModel => Retire(true, Unlock(Finished))
    case CleanupFailedLoad => Cleanup()
    case ReloadModel(config) => Reload(Some(config), false, Unlock(Finished), Unlock(Finished))
  }

  /** A new request, or a new operation of the manager. */
  predicate NewRequest(s: State, checkpoints: nat, s': State) {
    s' == s.(threads := s.threads + [Thread(Acquire(checkpoints, false), false, None, 0, checkpoints)])
  }

  predicate NewOperation(s: State, op: Operation, s': State) {
    s' == s.(threads := s.threads + [Thread(Locking(Program(op)), false, None, 0, 0)])
  }

  /** The instance when it has just been created: its first thread loads it. */
  ghost predicate Initial(s: State) {
    exists config :: FirstState(s, config)
  }

  predicate FirstState(s: State, config: int) {
    && s.status == START_STATUS && s.handles == 0 && s.owner == Some(0)
    && s.parts == Unusable
    && s.threads == [Thread(Writing(Load(config), Drained), false, None, 0, 0)]
  }

  /** A step of thread t. */
  ghost predicate Step(s: State, t: nat, s': State) {
    && t < |s.threads|
    && (WaitStep(s, t, s') || (exists a :: ServeStep(s, t, a, s')) || (exists a :: WriteStep(s, t, a, s')))
  }

  ghost predicate Next(s: State, s': State) {
    || (exists t :: Step(s, t, s'))
    || (exists n :: NewRequest(s, n, s'))
    || (exists op :: NewOperation(s, op, s'))
  }

  // ---- the invariant ----

  function Guards(threads: seq<Thread>): nat {
    if threads == [] then 0
    else Guards(threads[..|threads| - 1]) + (if threads[|threads| - 1].guard then 1 else 0)
  }

  /** A thread that was told the instance is AVAILABLE and has not dropped its guard,
      or a callback that took over from such a thread. */
  predicate Holder(th: Thread) {
    th.pc.Admitted? || th.pc.Inferring? || th.pc.Returning? || th.pc.Leaving? || th.pc.Dropping?
  }

  ghost predicate NoHolders(s: State) {
    forall t :: 0 <= t < |s.threads| ==> !Holder(s.threads[t])
  }

  /** A program that keeps the protocol when it starts in the given phase. */
  predicate Safe(prog: Prog, phase: Phase) {
    match prog
    case Mark(status, next) =>
      if status.state == AVAILABLE then status == AVAILABLE_STATUS && phase.Ready? && Safe(next, Live(phase.parameter, false))
      else !(phase.Live? && phase.guard) && Safe(next, MarkedPhase(phase, status))
    case Poll(next) => (phase.Marked? || phase.Drained? || phase.Failed?) && Safe(next, if phase == Marked then Drained else phase)
    case Teardown(next) => (phase.Drained? || phase.Failed?) && Safe(next, phase)
    case Configure(_, next) => (phase.Drained? || phase.Failed?) && Safe(next, phase)
    case Build(parameter, ok, fail) => (phase.Drained? || phase.Failed?) && Safe(ok, Ready(parameter)) && Safe(fail, Drained)
    case Choose(yes, no) => Safe(yes, phase) && Safe(no, phase)
    case TakeGuard(next) => phase.Live? && !phase.guard && Safe(next, phase.(guard := true))
    case Unlock(outcome) => MayLeave(outcome, phase)
  }

  /** The phases in which a writer may unlock with a given outcome. */
  predicate MayLeave(outcome: Outcome, phase: Phase) {
    match outcome
    case Finished => phase.Drained? || phase.Failed? || (phase.Live? && !phase.guard)
    case Reloaded => phase.Live? && phase.guard && phase.parameter
    case ReloadFailed => phase.Failed? || (phase.Live? && !phase.guard && !phase.parameter)
    case Refused => phase.Open?
  }

  /** What holds of the instance while its owner is in the given phase. Phase Open also
      describes an instance without an owner. */
  ghost predicate Facts(s: State, phase: Phase) {
    match phase
    case Open => if s.status.state == AVAILABLE then s.parts.Built? else NoHolders(s)
    case Marked => s.status.state != AVAILABLE
    case Drained => s.status.state != AVAILABLE && NoHolders(s)
    case Failed => s.status == FAILED_STATUS && NoHolders(s)
    case Ready(parameter) =>
      && s.status.state != AVAILABLE && NoHolders(s)
      && s.parts.Built? && s.parts.config == s.config && s.parts.parameter == parameter
    case Live(parameter, _) =>
      && s.status == AVAILABLE_STATUS
      && s.parts.Built? && s.parts.config == s.config && s.parts.parameter == parameter
  }

  ghost predicate OwnerOk(s: State) {
    && (forall t :: 0 <= t < |s.threads| ==> (s.threads[t].pc.Writing? <==> s.owner == Some(t)))
    && match s.owner
       case None => Facts(s, Open)
       case Some(t) =>
         && t < |s.threads| && s.threads[t].pc.Writing?
         && Safe(s.threads[t].pc.prog, s.threads[t].pc.phase) && Facts(s, s.threads[t].pc.phase)
  }

  /** How many guards waitForLoaded has made when it is at a given place. */
  predicate AcquiredOk(th: Thread) {
    match th.pc
    case Acquire(left, again) =>
      && left <= th.checkpoints && th.acquired == th.checkpoints - left && (again <==> left < th.checkpoints)
    case Check(left, again) => left <= th.checkpoints && th.acquired == th.checkpoints - left + 1
    case Release(left, again) => left <= th.checkpoints && th.acquired == th.checkpoints - left + 1
    case After(left) => left <= th.checkpoints && th.acquired == th.checkpoints - left + 1
    case Wait(left) => left <= th.checkpoints && th.acquired == th.checkpoints - left + 1
    case Final => th.acquired == th.checkpoints + 1
    case Done(result) => if result == NOT_LOADED_YET then th.acquired == th.checkpoints + 1 else th.acquired <= th.checkpoints + 1
    case _ => th.acquired <= th.checkpoints + 1
  }

  predicate HasGuard(pc: Pc) {
    pc.Check? || pc.Release? || pc.Admitted? || pc.Inferring? || pc.Returning? || pc.Leaving? || pc.Dropping?
    || (pc.Writing? && pc.phase.Live? && pc.phase.guard)
  }

  predicate ThreadOk(th: Thread) {
    && (th.guard <==> HasGuard(th.pc))
    && (th.stream.Some? <==> th.pc.Inferring? || th.pc.Returning?)
    && AcquiredOk(th)
    && (th.pc.Locking? ==> Safe(th.pc.prog, Open))
  }

  ghost predicate ThreadsOk(s: State) {
    forall t :: 0 <= t < |s.threads| ==> ThreadOk(s.threads[t])
  }

  ghost predicate Taken(s: State, id: nat)
    requires s.parts.Built?
  {
    exists t :: 0 <= t < |s.threads| && s.threads[t].stream == Some(Stream(s.parts.generation, id))
  }

  /** Every stream id of the queue is idle or with exactly one thread, and every id that
      a thread holds belongs to the queue. */
  ghost predicate StreamsOk(s: State) {
    && (forall t :: 0 <= t < |s.threads| && s.threads[t].stream.Some? ==>
          && s.parts.Built? && s.threads[t].stream.value.generation == s.parts.generation
          && s.threads[t].stream.value.id < s.parts.streams && s.threads[t].stream.value.id !in s.parts.idle)
    && (forall t, u :: 0 <= t < u < |s.threads| && s.threads[t].stream.Some? && s.threads[u].stream.Some? ==>
          s.threads[t].stream != s.threads[u].stream)
    && (s.parts.Built? ==>
          && s.parts.streams > 0
          && (forall id :: id in s.parts.idle ==> id < s.parts.streams)
          && (forall id: nat :: id < s.parts.streams && id !in s.parts.idle ==> Taken(s, id)))
  }

  predicate SameBuild(a: Parts, b: Parts) {
    a.Built? && b.Built? && a.generation == b.generation && a.config == b.config && a.parameter == b.parameter
  }

  ghost predicate HoldersOk(s: State) {
    !NoHolders(s) ==> s.parts.Built?
  }

  ghost predicate Inv(s: State) {
    && s.handles == Guards(s.threads)
    && ThreadsOk(s) && OwnerOk(s) && StreamsOk(s) && HoldersOk(s)
  }

  // ---- counting guards ----

  lemma {:induction false} GuardsPut(threads: seq<Thread>, t: nat, th: Thread)
    requires t < |threads|
    ensures Guards(threads[t := th])
            == Guards(threads) + (if th.guard then 1 else 0) - (if threads[t].guard then 1 else 0)
  {
    var n := |threads| - 1;
    if t == n {
      assert threads[t := th][..n] == threads[..n];
    } else {
      assert threads[t := th][..n] == threads[..n][t := th];
      GuardsPut(threads[..n], t, th);
    }
  }

  lemma GuardsAppend(threads: seq<Thread>, th: Thread)
    ensures Guards(threads + [th]) == Guards(threads) + (if th.guard then 1 else 0)
  {
    assert (threads + [th])[..|threads|] == threads;
  }

  lemma {:induction false} NoGuards(threads: seq<Thread>)
    requires Guards(threads) == 0
    ensures forall t :: 0 <= t < |threads| ==> !threads[t].guard
  {
    if threads != [] {
      NoGuards(threads[..|threads| - 1]);
      forall t | 0 <= t < |threads| ensures !threads[t].guard {
        if t < |threads| - 1 {
          assert threads[t] == threads[..|threads| - 1][t];
        }
      }
    }
  }

  lemma {:induction false} SomeGuard(threads: seq<Thread>) returns (t: nat)
    requires Guards(threads) > 0
    ensures t < |threads| && threads[t].guard
  {
    var n := |threads| - 1;
    if threads[n].guard {
      t := n;
    } else {
      t := SomeGuard(threads[..n]);
    }
  }

  // ---- the programs keep the protocol ----

  lemma RetireSafe(permanent: bool, next: Prog, phase: Phase)
    requires !phase.Ready? && !(phase.Live? && phase.guard) && Safe(next, Drained)
    ensures Safe(Retire(permanent, next), phase)
  {
    var rest := Teardown(if permanent then Mark(END_STATUS, next) else next);
    assert Safe(rest, Drained);
    assert Safe(Poll(rest), Marked) && Safe(Poll(rest), Drained);
  }

  lemma LoadSafe(config: Option<int>, parameter: bool, ok: Prog, fail: Prog)
    requires Safe(ok, Live(parameter, false)) && Safe(fail, Failed)
    ensures Safe(LoadImpl(config, parameter, ok, fail), Drained)
  {
    var build := Build(parameter, Mark(AVAILABLE_STATUS, ok), Mark(FAILED_STATUS, fail));
    assert Safe(Mark(AVAILABLE_STATUS, ok), Ready(parameter));
    assert Safe(Mark(FAILED_STATUS, fail), Drained);
    assert Safe(build, Drained);
  }

  lemma ReloadSafe(config: Option<int>, parameter: bool, ok: Prog, fail: Prog, phase: Phase)
    requires !phase.Ready? && !(phase.Live? && phase.guard)
    requires Safe(ok, Live(parameter, false)) && Safe(fail, Failed)
    ensures Safe(Reload(config, parameter, ok, fail), phase)
  {
    var load := LoadImpl(config, parameter, ok, fail);
    LoadSafe(config, parameter, ok, fail);
    RetireSafe(false, load, Drained);
    var choose := Choose(Retire(false, load), load);
    assert Safe(choose, Drained);
    assert Safe(Poll(choose), Marked) && Safe(Poll(choose), Drained);
  }

  lemma DynamicReloadSafe(hasParameter: bool)
    ensures Safe(DynamicReload(hasParameter), Open)
  {
    var ok := TakeGuard(Unlock(Reloaded));
    assert Safe(ok, Live(true, false));
    assert Safe(Unlock(ReloadFailed), Live(false, false)) && Safe(Unlock(ReloadFailed), Failed);
    ReloadSafe(None, false, Unlock(ReloadFailed), Unlock(ReloadFailed), Drained);
    RetireSafe(false, Reload(None, false, Unlock(ReloadFailed), Unlock(ReloadFailed)), Failed);
    ReloadSafe(None, true, ok, Recover(), Drained);
    RetireSafe(false, Reload(None, true, ok, Recover()), Failed);
    ReloadSafe(None, true, ok, FullReload(), Open);
  }

  lemma ProgramSafe(op: Operation)
    ensures Safe(Program(op), Open)
  {
    var finish := Unlock(Finished);
    assert Safe(finish, Drained) && Safe(finish, Failed) && Safe(finish, Live(false, false));
    match op
    case RetireModel => RetireSafe(true, finish, Open);
    case CleanupFailedLoad =>
      assert Safe(Teardown(finish), Drained);
      assert Safe(Poll(Teardown(finish)), Marked);
    case ReloadModel(config) => ReloadSafe(Some(config), false, finish, finish, Open);
  }

  lemma FirstLoadSafe(config: int)
    ensures Safe(Load(config), Drained)
  {
    var finish := Unlock(Finished);
    assert Safe(finish, Failed) && Safe(finish, Live(false, false));
    LoadSafe(Some(config), false, finish, finish);
    assert Safe(Mark(LOADING_STATUS, LoadImpl(Some(config), false, finish, finish)), Drained);
  }

  // ---- the invariant is inductive ----

  lemma InitialInv(s: State)
    requires Initial(s)
    ensures Inv(s)
  {
    var config :| FirstState(s, config);
    FirstLoadSafe(config);
    assert s.threads[..0] == [];
    assert s.threads[..|s.threads| - 1] == [];
  }

  /** A step of a thread that is not the owner and leaves the queue alone. */
  ghost predicate Moves(s: State, t: nat, th: Thread, s': State)
    requires t < |s.threads|
  {
    && s' == s.(threads := s.threads[t := th], handles := s'.handles)
    && s'.handles == s.handles + (if th.guard then 1 else 0) - (if s.threads[t].guard then 1 else 0)
    && ThreadOk(th) && th.stream == s.threads[t].stream
    && !s.threads[t].pc.Writing? && !th.pc.Writing?
    && (Holder(th) ==> Holder(s.threads[t]) || s.status.state == AVAILABLE)
  }

  lemma MoveInv(s: State, t: nat, th: Thread, s': State)
    requires Inv(s) && t < |s.threads| && Moves(s, t, th, s')
    ensures Inv(s')
  {
    GuardsPut(s.threads, t, th);
    StreamsAfter(s, t, th, s');
    ThreadsAfter(s, t, th, s');
    MoveOwner(s, t, th, s');
  }

  lemma MoveOwner(s: State, t: nat, th: Thread, s': State)
    requires OwnerOk(s) && HoldersOk(s) && t < |s.threads| && Moves(s, t, th, s')
    ensures OwnerOk(s') && HoldersOk(s')
  {
    if !(Holder(th) && !Holder(s.threads[t])) {
      HoldersAfter(s, t, th, s');
    }
  }

  lemma HoldersAfter(s: State, t: nat, th: Thread, s': State)
    requires t < |s.threads| && s'.threads == s.threads[t := th]
    requires Holder(th) ==> Holder(s.threads[t])
    ensures NoHolders(s) ==> NoHolders(s')
  {
  }

  lemma StreamsAfter(s: State, t: nat, th: Thread, s': State)
    requires t < |s.threads| && s'.threads == s.threads[t := th] && s'.parts == s.parts
    requires th.stream == s.threads[t].stream && StreamsOk(s)
    ensures StreamsOk(s')
  {
    forall u ensures 0 <= u < |s.threads| ==> s'.threads[u].stream == s.threads[u].stream {
    }
    if s.parts.Built? {
      forall id: nat | id < s.parts.streams && id !in s.parts.idle ensures Taken(s', id) {
        assert Taken(s, id);
      }
    }
  }

  lemma WaitInv(s: State, t: nat, s': State)
    requires Inv(s) && t < |s.threads| && WaitStep(s, t, s')
    ensures Inv(s')
  {
    WaitMoves(s, t, s');
    MoveInv(s, t, s'.threads[t], s');
  }

  lemma WaitMoves(s: State, t: nat, s': State)
    requires t < |s.threads| && ThreadOk(s.threads[t]) && WaitStep(s, t, s')
    ensures |s'.threads| == |s.threads| && Moves(s, t, s'.threads[t], s')
  {
    WaitChangesOne(s, t, s');
    WaitThread(s, t, s');
  }

  lemma WaitThread(s: State, t: nat, s': State)
    requires t < |s.threads| && ThreadOk(s.threads[t]) && WaitStep(s, t, s')
    ensures |s'.threads| == |s.threads|
    ensures var th := s'.threads[t];
            && ThreadOk(th) && th.stream == s.threads[t].stream && !th.pc.Writing? && !s.threads[t].pc.Writing?
            && (Holder(th) ==> s.status.state == AVAILABLE)
            && s'.handles == s.handles + (if th.guard then 1 else 0) - (if s.threads[t].guard then 1 else 0)
  {
  }

  lemma WaitChangesOne(s: State, t: nat, s': State)
    requires t < |s.threads| && WaitStep(s, t, s')
    ensures s' == s.(threads := s.threads[t := s'.threads[t]], handles := s'.handles)
  {
    var th := s.threads[t];
    if th.pc.Acquire? {
      PutTwice(s.threads, t, th.(acquired := th.acquired + 1), s'.threads[t]);
    }
  }

  lemma PutTwice(threads: seq<Thread>, t: nat, a: Thread, b: Thread)
    requires t < |threads|
    ensures threads[t := a][t := b] == threads[t := b]
  {
  }

  /** A thread that is not the owner moves, and the queue at most gains or loses idle ids. */
  lemma OwnerKept(s: State, t: nat, th: Thread, s': State)
    requires OwnerOk(s) && t < |s.threads| && s'.threads == s.threads[t := th]
    requires s'.owner == s.owner && s'.status == s.status && s'.config == s.config
    requires SameBuild(s.parts, s'.parts)
    requires !s.threads[t].pc.Writing? && !th.pc.Writing? && (Holder(th) ==> Holder(s.threads[t]))
    ensures OwnerOk(s')
  {
    HoldersAfter(s, t, th, s');
  }

  lemma TakeStreamStreams(s: State, t: nat, id: nat, s': State)
    requires StreamsOk(s) && t < |s.threads| && s.threads[t].stream == None
    requires s.parts.Built? && id in s.parts.idle
    requires |s'.threads| == |s.threads| && forall u :: 0 <= u < |s.threads| && u != t ==> s'.threads[u] == s.threads[u]
    requires s'.threads[t].stream == Some(Stream(s.parts.generation, id)) && s'.parts == s.parts.(idle := s.parts.idle - {id})
    ensures StreamsOk(s')
  {
    forall i: nat | i < s.parts.streams && i !in s'.parts.idle ensures Taken(s', i) {
      if i == id {
        assert s'.threads[t].stream == Some(Stream(s'.parts.generation, i));
      } else {
        assert Taken(s, i);
        var u :| 0 <= u < |s.threads| && s.threads[u].stream == Some(Stream(s.parts.generation, i));
        assert s'.threads[u].stream == Some(Stream(s'.parts.generation, i));
      }
    }
  }

  lemma TakeStreamInv(s: State, t: nat, id: nat, s': State)
    requires Inv(s) && t < |s.threads| && s.threads[t].pc.Admitted? && ServeStep(s, t, TakeStream(id), s')
    ensures Inv(s')
  {
    var th := s'.threads[t];
    assert ThreadOk(s.threads[t]);
    GuardsPut(s.threads, t, th);
    TakeStreamStreams(s, t, id, s');
    ThreadsAfter(s, t, th, s');
    OwnerKept(s, t, th, s');
  }

  lemma ReturnStreamStreams(s: State, t: nat, s': State)
    requires StreamsOk(s) && t < |s.threads| && s.threads[t].stream.Some?
    requires |s'.threads| == |s.threads| && forall u :: 0 <= u < |s.threads| && u != t ==> s'.threads[u] == s.threads[u]
    requires s'.threads[t].stream == None && s'.parts == Returned(s.parts, s.threads[t].stream.value)
    ensures StreamsOk(s') && s'.parts.Built?
  {
    forall i: nat | i < s.parts.streams && i !in s'.parts.idle ensures Taken(s', i) {
      assert Taken(s, i);
      var u :| 0 <= u < |s.threads| && s.threads[u].stream == Some(Stream(s.parts.generation, i));
      assert u != t;
      assert s'.threads[u].stream == Some(Stream(s'.parts.generation, i));
    }
  }

  lemma ReturnStreamInv(s: State, t: nat, s': State)
    requires Inv(s) && t < |s.threads| && s.threads[t].pc.Returning? && ServeStep(s, t, Finish, s')
    ensures Inv(s')
  {
    var th := s'.threads[t];
    assert ThreadOk(s.threads[t]);
    GuardsPut(s.threads, t, th);
    ReturnStreamStreams(s, t, s');
    ThreadsAfter(s, t, th, s');
    OwnerKept(s, t, th, s');
  }

  lemma HandOverStreams(s: State, t: nat, s': State)
    requires StreamsOk(s) && t < |s.threads| && |s'.threads| == |s.threads| + 1 && s'.parts == s.parts
    requires forall u :: 0 <= u < |s.threads| && u != t ==> s'.threads[u] == s.threads[u]
    requires s'.threads[t].stream == None && s'.threads[|s.threads|].stream == s.threads[t].stream
    ensures StreamsOk(s')
  {
    var n := |s.threads|;
    forall u | 0 <= u < n && s'.threads[u].stream.Some? && s'.threads[n].stream.Some?
      ensures s'.threads[u].stream != s'.threads[n].stream
    {
      assert u != t;
    }
    HandOverTaken(s, t, s');
  }

  lemma HandOverTaken(s: State, t: nat, s': State)
    requires StreamsOk(s) && t < |s.threads| && |s'.threads| == |s.threads| + 1 && s'.parts == s.parts
    requires forall u :: 0 <= u < |s.threads| && u != t ==> s'.threads[u] == s.threads[u]
    requires s'.threads[|s.threads|].stream == s.threads[t].stream
    ensures s.parts.Built? ==> forall i: nat :: i < s.parts.streams && i !in s.parts.idle ==> Taken(s', i)
  {
    var n := |s.threads|;
    if s.parts.Built? {
      forall i: nat | i < s.parts.streams && i !in s.parts.idle ensures Taken(s', i) {
        assert Taken(s, i);
        var u :| 0 <= u < |s.threads| && s.threads[u].stream == Some(Stream(s.parts.generation, i));
        assert s'.threads[if u == t then n else u].stream == Some(Stream(s.parts.generation, i));
      }
    }
  }

  /** The callback takes over guard and stream id in one step of the requester. */
  lemma StartAsyncInv(s: State, t: nat, s': State)
    requires Inv(s) && t < |s.threads| && s.threads[t].pc.Inferring? && ServeStep(s, t, StartAsync, s')
    ensures Inv(s')
  {
    var th := s.threads[t];
    assert ThreadOk(th);
    var left := s.threads[t := th.(pc := Done(SERVED), guard := false, stream := None)];
    var callback := Thread(Returning, th.guard, th.stream, 0, 0);
    assert s'.threads == left + [callback];
    GuardsPut(s.threads, t, left[t]);
    GuardsAppend(left, callback);
    HandOverStreams(s, t, s');
    HandOverOwner(s, t, s');
    assert Holder(s.threads[t]);
  }

  lemma HandOverOwner(s: State, t: nat, s': State)
    requires ThreadsOk(s) && OwnerOk(s) && HoldersOk(s)
    requires t < |s.threads| && s.threads[t].pc.Inferring? && ServeStep(s, t, StartAsync, s')
    ensures OwnerOk(s') && ThreadsOk(s') && s'.parts.Built?
  {
    var n := |s.threads|;
    assert ThreadOk(s.threads[t]) && Holder(s.threads[t]);
    assert forall u :: 0 <= u < n && u != t ==> s'.threads[u] == s.threads[u];
    assert s'.threads[t].pc == Done(SERVED) && s'.threads[n].pc == Returning;
  }

  lemma ServeInv(s: State, t: nat, a: Serve, s': State)
    requires Inv(s) && t < |s.threads| && ServeStep(s, t, a, s')
    ensures Inv(s')
  {
    if s.threads[t].pc.Admitted? && a.TakeStream? {
      TakeStreamInv(s, t, a.id, s');
    } else if s.threads[t].pc.Inferring? && a == StartAsync {
      StartAsyncInv(s, t, s');
    } else if s.threads[t].pc.Returning? {
      ReturnStreamInv(s, t, s');
    } else {
      ServeMoves(s, t, a, s');
      MoveInv(s, t, s'.threads[t], s');
    }
  }

  /** The other steps of a request leave the queue alone. */
  lemma ServeMoves(s: State, t: nat, a: Serve, s': State)
    requires t < |s.threads| && ThreadOk(s.threads[t]) && ServeStep(s, t, a, s')
    requires !a.TakeStream? && a != StartAsync && !s.threads[t].pc.Returning?
    ensures |s'.threads| == |s.threads| && Moves(s, t, s'.threads[t], s')
  {
    ServeChangesOne(s, t, a, s');
    ServeThread(s, t, a, s');
  }

  lemma ServeThread(s: State, t: nat, a: Serve, s': State)
    requires t < |s.threads| && ThreadOk(s.threads[t]) && ServeStep(s, t, a, s')
    requires !a.TakeStream? && a != StartAsync && !s.threads[t].pc.Returning?
    ensures |s'.threads| == |s.threads|
    ensures var th := s'.threads[t];
            && ThreadOk(th) && th.stream == s.threads[t].stream && !th.pc.Writing? && !s.threads[t].pc.Writing?
            && (Holder(th) ==> Holder(s.threads[t]))
            && s'.handles == s.handles + (if th.guard then 1 else 0) - (if s.threads[t].guard then 1 else 0)
  {
    if s.threads[t].pc.Dropping? {
      DynamicReloadSafe(s.threads[t].pc.hasParameter);
    }
  }

  lemma ServeChangesOne(s: State, t: nat, a: Serve, s': State)
    requires t < |s.threads| && ServeStep(s, t, a, s')
    requires !a.TakeStream? && a != StartAsync && !s.threads[t].pc.Returning?
    ensures s' == s.(threads := s.threads[t := s'.threads[t]], handles := s'.handles)
  {
  }

  /** Thread t is replaced by th and is the owner afterwards exactly if th is a writer. */
  lemma OwnerAfter(s: State, t: nat, th: Thread, s': State)
    requires OwnerOk(s) && t < |s.threads| && s'.threads == s.threads[t := th]
    requires s.owner.Some? ==> s.owner.value == t
    requires s'.owner == if th.pc.Writing? then Some(t) else None
    requires if th.pc.Writing? then Safe(th.pc.prog, th.pc.phase) && Facts(s', th.pc.phase) else Facts(s', Open)
    ensures OwnerOk(s')
  {
  }

  lemma ThreadsAfter(s: State, t: nat, th: Thread, s': State)
    requires ThreadsOk(s) && t < |s.threads| && s'.threads == s.threads[t := th] && ThreadOk(th)
    ensures ThreadsOk(s')
  {
  }

  lemma LockInv(s: State, t: nat, s': State)
    requires Inv(s) && t < |s.threads| && s.threads[t].pc.Locking? && WriteStep(s, t, Go, s')
    ensures Inv(s')
  {
    var th := s'.threads[t];
    assert ThreadOk(s.threads[t]);
    GuardsPut(s.threads, t, th);
    HoldersAfter(s, t, th, s');
    StreamsAfter(s, t, th, s');
    ThreadsAfter(s, t, th, s');
    OwnerAfter(s, t, th, s');
  }

  /** An instance may be left without an owner in every phase that allows unlocking. */
  lemma LeaveFacts(s: State, s': State, outcome: Outcome, phase: Phase)
    requires Facts(s, phase) && MayLeave(outcome, phase) && s'.status == s.status && s'.parts == s.parts
    requires outcome != Reloaded ==> (NoHolders(s) ==> NoHolders(s'))
    ensures Facts(s', Open)
  {
  }

  lemma UnlockInv(s: State, t: nat, s': State)
    requires Inv(s) && t < |s.threads| && s.threads[t].pc.Writing? && s.threads[t].pc.prog.Unlock? && WriteStep(s, t, Go, s')
    ensures Inv(s')
  {
    var th := s'.threads[t];
    var pc := s.threads[t].pc;
    assert ThreadOk(s.threads[t]);
    GuardsPut(s.threads, t, th);
    if pc.prog.outcome != Reloaded {
      HoldersAfter(s, t, th, s');
    }
    LeaveFacts(s, s', pc.prog.outcome, pc.phase);
    StreamsAfter(s, t, th, s');
    ThreadsAfter(s, t, th, s');
    OwnerAfter(s, t, th, s');
  }

  /** A step of the owner that changes neither guards nor the queue. */
  lemma OwnerMoveInv(s: State, t: nat, a: Choice, s': State)
    requires Inv(s) && t < |s.threads| && s.threads[t].pc.Writing? && WriteStep(s, t, a, s')
    requires var p := s.threads[t].pc.prog; p.Mark? || p.Choose?
    ensures Inv(s')
  {
    var th := s'.threads[t];
    assert ThreadOk(s.threads[t]);
    GuardsPut(s.threads, t, th);
    StreamsAfter(s, t, th, s');
    HoldersAfter(s, t, th, s');
    ThreadsAfter(s, t, th, s');
    OwnerAfter(s, t, th, s');
  }

  /** The poll ends when there is no guard, so there is no holder either. */
  lemma PollInv(s: State, t: nat, s': State)
    requires Inv(s) && t < |s.threads| && s.threads[t].pc.Writing? && s.threads[t].pc.prog.Poll? && WriteStep(s, t, Go, s')
    ensures Inv(s') && NoHolders(s')
  {
    var th := s'.threads[t];
    assert ThreadOk(s.threads[t]);
    NoGuards(s.threads);
    forall u | 0 <= u < |s.threads| ensures !Holder(s.threads[u]) {
      assert ThreadOk(s.threads[u]);
    }
    GuardsPut(s.threads, t, th);
    StreamsAfter(s, t, th, s');
    HoldersAfter(s, t, th, s');
    ThreadsAfter(s, t, th, s');
    OwnerAfter(s, t, th, s');
  }

  lemma TakeGuardInv(s: State, t: nat, s': State)
    requires Inv(s) && t < |s.threads| && s.threads[t].pc.Writing? && s.threads[t].pc.prog.TakeGuard? && WriteStep(s, t, Go, s')
    ensures Inv(s')
  {
    var th := s'.threads[t];
    assert ThreadOk(s.threads[t]);
    GuardsPut(s.threads, t, th);
    StreamsAfter(s, t, th, s');
    HoldersAfter(s, t, th, s');
    ThreadsAfter(s, t, th, s');
    OwnerAfter(s, t, th, s');
  }

  lemma NoStreams(s: State, s': State)
    requires ThreadsOk(s) && NoHolders(s) && |s'.threads| == |s.threads|
    requires forall u :: 0 <= u < |s.threads| ==> s'.threads[u].stream == s.threads[u].stream
    requires s'.parts.Built? ==> s'.parts.streams > 0 && forall id: nat :: id in s'.parts.idle <==> id < s'.parts.streams
    ensures StreamsOk(s')
  {
    forall u | 0 <= u < |s.threads| ensures s'.threads[u].stream == None {
      assert ThreadOk(s.threads[u]) && !Holder(s.threads[u]);
    }
  }

  /** A step of the owner that takes the instance apart or puts it together. */
  lemma PartsInv(s: State, t: nat, a: Choice, s': State)
    requires Inv(s) && t < |s.threads| && s.threads[t].pc.Writing? && WriteStep(s, t, a, s')
    requires var p := s.threads[t].pc.prog; p.Teardown? || p.Configure? || p.Build?
    ensures Inv(s')
  {
    var th := s'.threads[t];
    assert ThreadOk(s.threads[t]);
    PartsStep(s, t, a, s');
    GuardsPut(s.threads, t, th);
    HoldersAfter(s, t, th, s');
    if s'.parts == s.parts {
      StreamsAfter(s, t, th, s');
    } else {
      NoStreams(s, s');
    }
    ThreadsAfter(s, t, th, s');
    OwnerAfter(s, t, th, s');
  }

  /** What such a step leaves alone, and what it leaves behind. */
  lemma PartsStep(s: State, t: nat, a: Choice, s': State)
    requires t < |s.threads| && s.threads[t].pc.Writing? && ThreadOk(s.threads[t]) && WriteStep(s, t, a, s')
    requires var p := s.threads[t].pc.prog; p.Teardown? || p.Configure? || p.Build?
    requires Safe(s.threads[t].pc.prog, s.threads[t].pc.phase) && Facts(s, s.threads[t].pc.phase)
    ensures |s'.threads| == |s.threads| && s'.threads == s.threads[t := s'.threads[t]]
    ensures NoHolders(s) && s'.handles == s.handles && s'.owner == s.owner
    ensures var th := s'.threads[t];
            && ThreadOk(th) && !th.guard && !s.threads[t].guard && th.stream == s.threads[t].stream
            && th.pc.Writing? && Safe(th.pc.prog, th.pc.phase) && Facts(s', th.pc.phase)
    ensures s'.parts == s.parts || s'.parts == Unusable
            || (s'.parts.Built? && s'.parts.streams > 0 && forall id: nat :: id in s'.parts.idle <==> id < s'.parts.streams)
  {
    HoldersAfter(s, t, s'.threads[t], s');
  }

  lemma WriteInv(s: State, t: nat, a: Choice, s': State)
    requires Inv(s) && t < |s.threads| && WriteStep(s, t, a, s')
    ensures Inv(s')
  {
    if s.threads[t].pc.Locking? {
      LockInv(s, t, s');
    } else {
      var p := s.threads[t].pc.prog;
      if p.Unlock? {
        UnlockInv(s, t, s');
      } else if p.TakeGuard? {
        TakeGuardInv(s, t, s');
      } else if p.Poll? {
        PollInv(s, t, s');
      } else if p.Mark? || p.Choose? {
        OwnerMoveInv(s, t, a, s');
      } else {
        PartsInv(s, t, a, s');
      }
    }
  }

  lemma AppendInv(s: State, th: Thread, s': State)
    requires Inv(s) && s' == s.(threads := s.threads + [th])
    requires ThreadOk(th) && !th.guard && th.stream == None && !Holder(th) && !th.pc.Writing?
    ensures Inv(s')
  {
    GuardsAppend(s.threads, th);
    AppendOwner(s, th, s');
    AppendStreams(s, th, s');
  }

  lemma AppendOwner(s: State, th: Thread, s': State)
    requires OwnerOk(s) && HoldersOk(s) && s' == s.(threads := s.threads + [th]) && !Holder(th) && !th.pc.Writing?
    ensures OwnerOk(s') && HoldersOk(s')
  {
    assert forall u :: 0 <= u < |s.threads| ==> s'.threads[u] == s.threads[u];
  }

  lemma AppendStreams(s: State, th: Thread, s': State)
    requires StreamsOk(s) && s' == s.(threads := s.threads + [th]) && th.stream == None
    ensures StreamsOk(s')
  {
    assert forall u :: 0 <= u < |s.threads| ==> s'.threads[u] == s.threads[u];
    if s.parts.Built? {
      forall i: nat | i < s.parts.streams && i !in s.parts.idle ensures Taken(s', i) {
        assert Taken(s, i);
        var u :| 0 <= u < |s.threads| && s.threads[u].stream == Some(Stream(s.parts.generation, i));
        assert s'.threads[u].stream == Some(Stream(s.parts.generation, i));
      }
    }
  }

  lemma NextInv(s: State, s': State)
    requires Inv(s) && Next(s, s')
    ensures Inv(s')
  {
    if t :| Step(s, t, s') {
      if WaitStep(s, t, s') {
        WaitInv(s, t, s');
      } else if a :| ServeStep(s, t, a, s') {
        ServeInv(s, t, a, s');
      } else {
        var a :| WriteStep(s, t, a, s');
        WriteInv(s, t, a, s');
      }
    } else if n :| NewRequest(s, n, s') {
      AppendInv(s, Thread(Acquire(n, false), false, None, 0, n), s');
    } else {
      var op :| NewOperation(s, op, s');
      ProgramSafe(op);
      AppendInv(s, Thread(Locking(Program(op)), false, None, 0, 0), s');
    }
  }

  // ---- what holds in every run ----

  ghost predicate Run(ss: seq<State>) {
    && ss != [] && Initial(ss[0])
    && forall i, j :: 0 <= i < j < |ss| && j == i + 1 ==> Next(ss[i], ss[j])
  }

  lemma {:induction false} RunInv(ss: seq<State>, i: nat)
    requires Run(ss) && i < |ss|
    ensures Inv(ss[i])
  {
    if i == 0 {
      InitialInv(ss[0]);
    } else {
      RunInv(ss, i - 1);
      NextInv(ss[i - 1], ss[i]);
    }
  }

  /** The steps that take the instance apart or build it. */
  predicate Destroys(prog: Prog) {
    prog.Teardown? || prog.Configure? || prog.Build?
  }

  /** Unload safety. While any thread holds on to an instance that it was told is
      AVAILABLE, no writer is past its poll, the compiled model and its queue exist, and
      the stream id of the thread belongs to that queue. */
  lemma UnloadSafety(ss: seq<State>, i: nat, t: nat)
    requires Run(ss) && i < |ss| && t < |ss[i].threads| && Holder(ss[i].threads[t])
    ensures var s := ss[i];
            && s.parts.Built? && s.threads[t].guard && s.handles > 0
            && (forall u :: 0 <= u < |s.threads| && s.threads[u].pc.Writing? ==> !Destroys(s.threads[u].pc.prog))
            && (s.threads[t].stream.Some? ==>
                  s.threads[t].stream.value.generation == s.parts.generation && s.threads[t].stream.value.id < s.parts.streams)
  {
    RunInv(ss, i);
    var s := ss[i];
    assert ThreadOk(s.threads[t]);
    GuardCounts(s.threads, t);
    assert !NoHolders(s);
  }

  lemma {:induction false} GuardCounts(threads: seq<Thread>, t: nat)
    requires t < |threads| && threads[t].guard
    ensures Guards(threads) > 0
  {
    if t < |threads| - 1 {
      GuardCounts(threads[..|threads| - 1], t);
    }
  }

  function Holders(threads: seq<Thread>): nat {
    if threads == [] then 0
    else Holders(threads[..|threads| - 1]) + (if Holder(threads[|threads| - 1]) then 1 else 0)
  }

  lemma {:induction false} HoldersPositive(s: State, threads: seq<Thread>)
    requires Holders(threads) > 0 && threads <= s.threads
    ensures !NoHolders(s)
  {
    var n := |threads| - 1;
    if Holder(threads[n]) {
      assert Holder(s.threads[n]);
    } else {
      HoldersPositive(s, threads[..n]);
    }
  }

  lemma StepKeepsBuild(s: State, t: nat, s': State)
    requires Inv(s) && Step(s, t, s') && !NoHolders(s)
    ensures SameBuild(s.parts, s'.parts)
  {
    assert ThreadOk(s.threads[t]);
    if s.owner == Some(t) {
      assert !Destroys(s.threads[t].pc.prog);
    }
  }

  lemma NextKeepsBuild(s: State, s': State)
    requires Inv(s) && Next(s, s') && Holders(s.threads) > 0
    ensures SameBuild(s.parts, s'.parts)
  {
    HoldersPositive(s, s.threads);
    if t: nat :| Step(s, t, s') {
      StepKeepsBuild(s, t, s');
    }
  }

  lemma HeldIsBuilt(s: State)
    requires Inv(s) && Holders(s.threads) > 0
    ensures s.parts.Built?
  {
    HoldersPositive(s, s.threads);
  }

  lemma RunIsBuilt(ss: seq<State>, i: nat)
    requires Run(ss) && i < |ss| && Holders(ss[i].threads) > 0
    ensures ss[i].parts.Built?
  {
    RunInv(ss, i);
    HeldIsBuilt(ss[i]);
  }

  lemma RunKeepsBuild(ss: seq<State>, i: nat, j: nat)
    requires Run(ss) && j < |ss| && j == i + 1 && Holders(ss[i].threads) > 0
    ensures SameBuild(ss[i].parts, ss[j].parts)
  {
    RunInv(ss, i);
    RunNext(ss, i, j);
    NextKeepsBuild(ss[i], ss[j]);
  }

  ghost predicate KeepsBuild(ss: seq<State>, i: nat, j: nat)
    requires i <= j < |ss|
  {
    forall k, l :: i <= k < l <= j && l == k + 1 ==> SameBuild(ss[k].parts, ss[l].parts)
  }

  lemma {:induction false} SameBuildChain(ss: seq<State>, i: nat, j: nat)
    requires i <= j < |ss| && ss[i].parts.Built? && KeepsBuild(ss, i, j)
    ensures SameBuild(ss[i].parts, ss[j].parts)
  {
    if i < j {
      SameBuildChain(ss, i, j - 1);
      assert SameBuild(ss[j - 1].parts, ss[j].parts);
    }
  }

  lemma RunKeepsBuilds(ss: seq<State>, i: nat, j: nat)
    requires Run(ss) && i <= j < |ss| && forall k :: i <= k <= j ==> Holders(ss[k].threads) > 0
    ensures KeepsBuild(ss, i, j)
  {
    forall k, l | i <= k < l <= j && l == k + 1 ensures SameBuild(ss[k].parts, ss[l].parts) {
      RunKeepsBuild(ss, k, l);
    }
  }

  /** As long as there is always some holder, whichever threads they are and however
      guards are handed over, the instance stays the one that was built. */
  lemma SameBuildWhileHeld(ss: seq<State>, i: nat, j: nat)
    requires Run(ss) && i <= j < |ss| && forall k :: i <= k <= j ==> Holders(ss[k].threads) > 0
    ensures SameBuild(ss[i].parts, ss[j].parts)
  {
    RunIsBuilt(ss, i);
    RunKeepsBuilds(ss, i, j);
    SameBuildChain(ss, i, j);
  }

  /** A returned stream id always finds the queue it was taken from. */
  lemma StreamFindsItsQueue(ss: seq<State>, i: nat, t: nat)
    requires Run(ss) && i < |ss| && t < |ss[i].threads| && ss[i].threads[t].pc.Returning?
    ensures var s := ss[i];
            && s.threads[t].stream.Some?
            && var stream := s.threads[t].stream.value;
            && s.parts.Built? && stream.id !in s.parts.idle
            && Returned(s.parts, stream) == s.parts.(idle := s.parts.idle + {stream.id})
  {
    RunInv(ss, i);
    assert ThreadOk(ss[i].threads[t]);
  }

  /** The counter is the number of guards, so it never goes below zero; a writer holds
      no guard while it polls or destroys; a thread that has returned, with whatever
      result, holds none; and waitForLoaded makes at most one guard more than it has
      checkpoints, and exactly that many before it gives up on a version that is not loaded
      yet. */
  lemma HandleConservation(ss: seq<State>, i: nat)
    requires Run(ss) && i < |ss|
    ensures var s := ss[i];
            && s.handles == Guards(s.threads)
            && (forall t :: 0 <= t < |s.threads| ==>
                  && (s.threads[t].pc.Writing? && (s.threads[t].pc.prog.Poll? || Destroys(s.threads[t].pc.prog)) ==> !s.threads[t].guard)
                  && (s.threads[t].pc.Done? ==> !s.threads[t].guard && s.threads[t].stream == None)
                  && s.threads[t].acquired <= 1 + s.threads[t].checkpoints
                  && (s.threads[t].pc == Done(NOT_LOADED_YET) ==> s.threads[t].acquired == 1 + s.threads[t].checkpoints))
  {
    RunInv(ss, i);
    var s := ss[i];
    forall t | 0 <= t < |s.threads|
      ensures s.threads[t].pc.Writing? && (s.threads[t].pc.prog.Poll? || Destroys(s.threads[t].pc.prog)) ==> !s.threads[t].guard
      ensures s.threads[t].pc.Done? ==> !s.threads[t].guard && s.threads[t].stream == None
      ensures s.threads[t].acquired <= 1 + s.threads[t].checkpoints
      ensures s.threads[t].pc == Done(NOT_LOADED_YET) ==> s.threads[t].acquired == 1 + s.threads[t].checkpoints
    {
      assert ThreadOk(s.threads[t]);
    }
  }

  /** Whatever happens around it, a dynamic reload that succeeds leaves the request with
      a guard on an AVAILABLE instance built with its parameter; one that fails leaves
      it without a guard, and the instance AVAILABLE on the stored configuration without
      the parameter, or LOADING with an error. */
  lemma DynamicReloadOutcome(ss: seq<State>, i: nat, t: nat)
    requires Run(ss) && i < |ss| && t < |ss[i].threads|
    requires ss[i].threads[t].pc.Writing? && ss[i].threads[t].pc.prog.Unlock?
    ensures var s := ss[i];
            var th := s.threads[t];
            match th.pc.prog.outcome
            case Reloaded =>
              && th.guard && s.status == AVAILABLE_STATUS
              && s.parts.Built? && s.parts.config == s.config && s.parts.parameter
            case ReloadFailed =>
              && !th.guard
              && ((s.status == AVAILABLE_STATUS && s.parts.Built? && s.parts.config == s.config && !s.parts.parameter)
                  || s.status == FAILED_STATUS)
            case Refused => !th.guard
            case Finished => !th.guard && (s.status.state == AVAILABLE ==> s.parts.Built? && s.parts.config == s.config)
  {
    RunInv(ss, i);
    assert ThreadOk(ss[i].threads[t]);
  }

  // ---- admission ----

  /** Where waitForLoaded is after a check that failed. */
  predicate Refusing(pc: Pc) {
    pc.Release? || pc.After? || pc.Wait? || pc.Final? || pc == Done(NOT_LOADED_YET) || pc == Done(NOT_LOADED_ANYMORE)
  }

  /** A step changes no thread but the one that takes it. */
  lemma OthersStay(s: State, u: nat, s': State, t: nat)
    requires Step(s, u, s') && t < |s.threads| && t != u
    ensures t < |s'.threads| && s'.threads[t] == s.threads[t]
  {
    if !WaitStep(s, u, s') && !(exists a :: ServeStep(s, u, a, s')) {
      var a :| WriteStep(s, u, a, s');
    }
  }

  lemma ThreadNext(s: State, s': State, t: nat)
    requires Next(s, s') && t < |s.threads|
    ensures t < |s'.threads| && (s'.threads[t] == s.threads[t] || Step(s, t, s'))
  {
    if u: nat :| Step(s, u, s') {
      if u != t {
        OthersStay(s, u, s', t);
      } else {
        StepLength(s, t, s');
      }
    }
  }

  lemma StepLength(s: State, t: nat, s': State)
    requires Step(s, t, s')
    ensures |s.threads| <= |s'.threads|
  {
    if !WaitStep(s, t, s') {
      LaterSteps(s, t, s');
    }
  }

  /** Outside waitForLoaded no step gets a request refused. */
  lemma LaterSteps(s: State, t: nat, s': State)
    requires Step(s, t, s') && !WaitStep(s, t, s')
    ensures |s.threads| <= |s'.threads| && !Refusing(s'.threads[t].pc)
    ensures !s.threads[t].pc.Acquire? && !s.threads[t].pc.Check?
  {
    if a :| ServeStep(s, t, a, s') {
      ServedNotRefused(s, t, a, s');
    } else {
      var a :| WriteStep(s, t, a, s');
      WriterNotRefused(s, t, a, s');
    }
  }

  lemma ServedNotRefused(s: State, t: nat, a: Serve, s': State)
    requires t < |s.threads| && ServeStep(s, t, a, s')
    ensures |s.threads| <= |s'.threads| && !Refusing(s'.threads[t].pc)
    ensures !s.threads[t].pc.Acquire? && !s.threads[t].pc.Check?
  {
  }

  lemma WriterNotRefused(s: State, t: nat, a: Choice, s': State)
    requires t < |s.threads| && WriteStep(s, t, a, s')
    ensures |s.threads| <= |s'.threads| && !Refusing(s'.threads[t].pc)
    ensures !s.threads[t].pc.Acquire? && !s.threads[t].pc.Check?
  {
    if s.threads[t].pc.Writing? && s.threads[t].pc.prog.Unlock? {
      assert s'.threads[t].pc == Left(s.threads[t].pc.prog.outcome);
    }
  }

  /** The first two steps of a request on an AVAILABLE instance. */
  lemma AdmissionStep(s: State, t: nat, s': State)
    requires Step(s, t, s') && t < |s'.threads| && s.status.state == AVAILABLE && !Refusing(s.threads[t].pc)
    ensures !Refusing(s'.threads[t].pc)
    ensures s.threads[t].pc.Acquire? ==>
              s'.threads[t].pc == Check(s.threads[t].pc.left, s.threads[t].pc.again) && s'.threads[t].guard
    ensures s.threads[t].pc.Check? ==> s'.threads[t] == s.threads[t].(pc := Admitted(false))
  {
    if !WaitStep(s, t, s') {
      LaterSteps(s, t, s');
    }
  }

  /** waitForLoaded has just begun, or it holds its first guard. */
  predicate Arriving(th: Thread, left: nat) {
    th.pc == Acquire(left, false) || (th.pc == Check(left, false) && th.guard)
  }

  predicate JustAdmitted(th: Thread) {
    th.pc == Admitted(false) && th.guard
  }

  lemma AdmissionNext(s: State, s': State, t: nat, left: nat)
    requires Next(s, s') && t < |s.threads| && s.status.state == AVAILABLE && !Refusing(s.threads[t].pc)
    ensures t < |s'.threads| && !Refusing(s'.threads[t].pc)
    ensures Arriving(s.threads[t], left) ==> Arriving(s'.threads[t], left) || JustAdmitted(s'.threads[t])
  {
    ThreadNext(s, s', t);
    if s'.threads[t] != s.threads[t] {
      AdmissionStep(s, t, s');
    }
  }

  /** The request is told AVAILABLE, with its guard held, in some state up to j. */
  ghost predicate AdmittedBy(ss: seq<State>, i: nat, j: nat, t: nat)
    requires j < |ss|
  {
    exists m :: i <= m <= j && t < |ss[m].threads| && JustAdmitted(ss[m].threads[t])
  }

  /** A request that arrives while the instance is AVAILABLE and stays so is not refused,
      however few checkpoints it has: its second step admits it, with its guard. */
  lemma {:induction false} AdmittedWhenAvailable(ss: seq<State>, i: nat, j: nat, t: nat, left: nat)
    requires Run(ss) && i <= j < |ss| && forall k :: i <= k < j ==> ss[k].status.state == AVAILABLE
    requires t < |ss[i].threads| && ss[i].threads[t].pc == Acquire(left, false)
    ensures t < |ss[j].threads| && !Refusing(ss[j].threads[t].pc)
    ensures Arriving(ss[j].threads[t], left) || AdmittedBy(ss, i, j, t)
    decreases j
  {
    if i < j {
      var m: nat := j - 1;
      AdmittedWhenAvailable(ss, i, m, t, left);
      RunNext(ss, m, j);
      AdmissionNext(ss[m], ss[j], t, left);
      if AdmittedBy(ss, i, m, t) {
        AdmittedLater(ss, i, m, j, t);
      }
    }
  }

  lemma AdmittedLater(ss: seq<State>, i: nat, j: nat, k: nat, t: nat)
    requires j <= k < |ss| && AdmittedBy(ss, i, j, t)
    ensures AdmittedBy(ss, i, k, t)
  {
  }

  lemma RunNext(ss: seq<State>, i: nat, j: nat)
    requires Run(ss) && j < |ss| && j == i + 1
    ensures Next(ss[i], ss[j])
  {
  }

  predicate NotLoaded(result: Result) {
    result == NOT_LOADED_YET || result == NOT_LOADED_ANYMORE
  }

  /** The step from s to s' refuses the request of thread t: "not any more" exactly if the
      version is unloading or has ended. */
  ghost predicate RefusedBy(s: State, s': State, t: nat, result: Result) {
    && t < |s.threads| && t < |s'.threads|
    && s.threads[t].pc != Done(result) && s'.threads[t].pc == Done(result)
    && (result == NOT_LOADED_ANYMORE <==> s.status.state == UNLOADING || s.status.state == END)
  }

  ghost predicate RefusedAt(ss: seq<State>, i: nat, j: nat, t: nat, result: Result)
    requires j < |ss|
  {
    exists m, n :: i <= m < n <= j && n == m + 1 && RefusedBy(ss[m], ss[n], t, result)
  }

  lemma RefusalStep(s: State, t: nat, s': State, result: Result)
    requires Step(s, t, s') && t < |s'.threads| && NotLoaded(result)
    ensures s'.threads[t].pc == Done(result) ==> RefusedBy(s, s', t, result)
  {
    if !WaitStep(s, t, s') {
      LaterSteps(s, t, s');
    }
  }

  lemma RefusalNext(s: State, s': State, t: nat, result: Result)
    requires Next(s, s') && t < |s.threads| && NotLoaded(result)
    ensures t < |s'.threads|
    ensures s'.threads[t].pc == Done(result) ==> s.threads[t].pc == Done(result) || RefusedBy(s, s', t, result)
  {
    ThreadNext(s, s', t);
    if s'.threads[t] != s.threads[t] {
      RefusalStep(s, t, s', result);
    }
  }

  /** A request that is told the version is not loaded was told so by a step whose state
      decides between the two results. */
  lemma {:induction false} WhichRefusal(ss: seq<State>, i: nat, j: nat, t: nat, result: Result)
    requires Run(ss) && i <= j < |ss| && t < |ss[i].threads| && ss[i].threads[t].pc != Done(result)
    requires t < |ss[j].threads| && ss[j].threads[t].pc == Done(result) && NotLoaded(result)
    ensures RefusedAt(ss, i, j, t, result)
    decreases j
  {
    var k: nat := j - 1;
    ThreadsGrow(ss, i, k);
    RunNext(ss, k, j);
    RefusalNext(ss[k], ss[j], t, result);
    if !RefusedBy(ss[k], ss[j], t, result) {
      WhichRefusal(ss, i, k, t, result);
    }
  }

  lemma NextGrows(s: State, s': State)
    requires Next(s, s')
    ensures |s.threads| <= |s'.threads|
  {
    if t: nat :| Step(s, t, s') {
      StepLength(s, t, s');
    }
  }

  lemma {:induction false} ThreadsGrow(ss: seq<State>, i: nat, j: nat)
    requires Run(ss) && i <= j < |ss|
    ensures |ss[i].threads| <= |ss[j].threads|
    decreases j
  {
    if i < j {
      var m: nat := j - 1;
      ThreadsGrow(ss, i, m);
      RunNext(ss, m, j);
      NextGrows(ss[m], ss[j]);
    }
  }

  // ---- what an operation leaves behind ----

  /** What there is when a writer unlocks: the status, the stored configuration, whether the
      components exist and with which parameter, and the outcome. */
  datatype Ending = Ending(status: Status, config: int, built: Option<bool>, outcome: Outcome)

  function BuiltWith(parts: Parts): Option<bool> {
    if parts.Built? then Some(parts.parameter) else None
  }

  /** The endings a program can reach, alone on the mutex. */
  function Endings(prog: Prog, status: Status, config: int, built: Option<bool>): set<Ending> {
    match prog
    case Mark(marked, next) => Endings(next, marked, config, built)
    case Poll(next) => Endings(next, status, config, built)
    case Teardown(next) => Endings(next, status, config, None)
    case Configure(stored, next) => Endings(next, status, if stored.Some? then stored.value else config, None)
    case Build(parameter, ok, fail) => Endings(ok, status, config, Some(parameter)) + Endings(fail, status, config, built)
    case Choose(yes, no) => Endings(yes, status, config, built) + Endings(no, status, config, built)
    case TakeGuard(next) => Endings(next, status, config, built)
    case Unlock(outcome) => {Ending(status, config, built, outcome)}
  }

  lemma LoadEndings(config: Option<int>, parameter: bool, ok: Prog, fail: Prog, status: Status, stored: int, built: Option<bool>)
    ensures var c := if config.Some? then config.value else stored;
            Endings(LoadImpl(config, parameter, ok, fail), status, stored, built)
            == Endings(ok, AVAILABLE_STATUS, c, Some(parameter)) + Endings(fail, FAILED_STATUS, c, None)
  {
    var c := if config.Some? then config.value else stored;
    var marked, failed := Mark(AVAILABLE_STATUS, ok), Mark(FAILED_STATUS, fail);
    assert Endings(marked, status, c, Some(parameter)) == Endings(ok, AVAILABLE_STATUS, c, Some(parameter));
    assert Endings(failed, status, c, None) == Endings(fail, FAILED_STATUS, c, None);
    assert Endings(Build(parameter, marked, failed), status, c, None)
           == Endings(marked, status, c, Some(parameter)) + Endings(failed, status, c, None);
  }

  lemma RetireEndings(permanent: bool, next: Prog, status: Status, stored: int, built: Option<bool>)
    ensures Endings(Retire(permanent, next), status, stored, built)
            == Endings(next, if permanent then END_STATUS else LOADING_STATUS, stored, None)
  {
    var unloading := if permanent then UNLOADING_STATUS else LOADING_STATUS;
    var rest := if permanent then Mark(END_STATUS, next) else next;
    assert Endings(Poll(Teardown(rest)), unloading, stored, built) == Endings(Teardown(rest), unloading, stored, built)
           == Endings(rest, unloading, stored, None);
  }

  lemma ReloadEndings(config: Option<int>, parameter: bool, ok: Prog, fail: Prog, status: Status, stored: int, built: Option<bool>)
    ensures var c := if config.Some? then config.value else stored;
            Endings(Reload(config, parameter, ok, fail), status, stored, built)
            == Endings(ok, AVAILABLE_STATUS, c, Some(parameter)) + Endings(fail, FAILED_STATUS, c, None)
  {
    var load := LoadImpl(config, parameter, ok, fail);
    LoadEndings(config, parameter, ok, fail, LOADING_STATUS, stored, built);
    LoadEndings(config, parameter, ok, fail, LOADING_STATUS, stored, None);
    RetireEndings(false, load, LOADING_STATUS, stored, built);
    var choose := Choose(Retire(false, load), load);
    assert Endings(choose, LOADING_STATUS, stored, built)
           == Endings(Retire(false, load), LOADING_STATUS, stored, built) + Endings(load, LOADING_STATUS, stored, built);
    assert Endings(Poll(choose), LOADING_STATUS, stored, built) == Endings(choose, LOADING_STATUS, stored, built);
  }

  /** A retirement ends in END and a cleanup in LOADING with an error, both without
      components and with the stored configuration left alone; a reload of the manager stores
      its configuration and ends AVAILABLE with components, or in LOADING with an error and
      without them. */
  lemma OperationEndings(op: Operation, status: Status, stored: int, built: Option<bool>)
    ensures Endings(Program(op), status, stored, built)
            == match op
               case RetireModel => {Ending(END_STATUS, stored, None, Finished)}
               case CleanupFailedLoad => {Ending(FAILED_STATUS, stored, None, Finished)}
               case ReloadModel(config) =>
                 {Ending(AVAILABLE_STATUS, config, Some(false), Finished), Ending(FAILED_STATUS, config, None, Finished)}
  {
    var finish := Unlock(Finished);
    match op
    case RetireModel => RetireEndings(true, finish, status, stored, built);
    case CleanupFailedLoad =>
      assert Endings(Poll(Teardown(finish)), FAILED_STATUS, stored, built)
             == Endings(Teardown(finish), FAILED_STATUS, stored, built) == Endings(finish, FAILED_STATUS, stored, None);
    case ReloadModel(config) => ReloadEndings(Some(config), false, finish, finish, status, stored, built);
  }

  /** A dynamic reload leaves the stored configuration alone. Without a parameter it only
      refuses; with one it succeeds AVAILABLE with the parameter, or fails AVAILABLE without
      it or in LOADING with an error and without components. */
  lemma DynamicReloadEndings(hasParameter: bool, status: Status, stored: int, built: Option<bool>)
    ensures Endings(DynamicReload(hasParameter), status, stored, built)
            == if hasParameter
               then {Ending(AVAILABLE_STATUS, stored, Some(true), Reloaded),
                     Ending(AVAILABLE_STATUS, stored, Some(false), ReloadFailed),
                     Ending(FAILED_STATUS, stored, None, ReloadFailed)}
               else {Ending(status, stored, built, Refused)}
  {
    if hasParameter {
      var ok, failed := TakeGuard(Unlock(Reloaded)), Unlock(ReloadFailed);
      assert Endings(ok, AVAILABLE_STATUS, stored, Some(true)) == {Ending(AVAILABLE_STATUS, stored, Some(true), Reloaded)};
      var again := Reload(None, false, failed, failed);
      ReloadEndings(None, false, failed, failed, LOADING_STATUS, stored, None);
      RetireEndings(false, again, FAILED_STATUS, stored, None);
      var full := Reload(None, true, ok, Recover());
      ReloadEndings(None, true, ok, Recover(), LOADING_STATUS, stored, None);
      RetireEndings(false, full, FAILED_STATUS, stored, None);
      ReloadEndings(None, true, ok, FullReload(), status, stored, built);
    }
  }

  ghost function EndingsAt(s: State, t: nat): set<Ending>
    requires t < |s.threads| && s.threads[t].pc.Writing?
  {
    Endings(s.threads[t].pc.prog, s.status, s.config, BuiltWith(s.parts))
  }

  /** While a thread is the owner, its own steps narrow its endings, and nobody else's
      steps change status or configuration. */
  lemma WriterNarrows(s: State, s': State, t: nat)
    requires Inv(s) && Next(s, s') && t < |s.threads| && s.threads[t].pc.Writing?
    requires t < |s'.threads| && s'.threads[t].pc.Writing?
    ensures EndingsAt(s', t) <= EndingsAt(s, t)
  {
    if u: nat :| Step(s, u, s') {
      if u != t {
        OthersStay(s, u, s', t);
        OthersWriteNothing(s, u, s', t);
      } else {
        OwnStepNarrows(s, s', t);
      }
    }
  }

  lemma OwnStepNarrows(s: State, s': State, t: nat)
    requires Step(s, t, s') && s.threads[t].pc.Writing? && t < |s'.threads| && s'.threads[t].pc.Writing?
    ensures EndingsAt(s', t) <= EndingsAt(s, t)
  {
    var a :| WriteStep(s, t, a, s');
  }

  lemma OnlyWritersWrite(s: State, u: nat, s': State)
    requires Step(s, u, s')
    ensures s.threads[u].pc.Writing? || (s'.status == s.status && s'.config == s.config && BuiltWith(s'.parts) == BuiltWith(s.parts))
  {
    if !WaitStep(s, u, s') && !(exists a :: ServeStep(s, u, a, s')) {
      var a :| WriteStep(s, u, a, s');
    }
  }

  lemma OthersWriteNothing(s: State, u: nat, s': State, t: nat)
    requires OwnerOk(s) && Step(s, u, s') && t != u && t < |s.threads| && s.threads[t].pc.Writing?
    ensures s'.status == s.status && s'.config == s.config && BuiltWith(s'.parts) == BuiltWith(s.parts)
  {
    assert s.owner == Some(t);
    OnlyWritersWrite(s, u, s');
  }

  lemma LockKeeps(s: State, s': State, t: nat, prog: Prog)
    requires Next(s, s') && t < |s.threads| && s.threads[t].pc == Locking(prog)
    requires t < |s'.threads| && s'.threads[t].pc.Writing?
    ensures s'.threads[t].pc.prog == prog && s'.status == s.status && s'.config == s.config && s'.parts == s.parts
  {
    ThreadNext(s, s', t);
    var a :| WriteStep(s, t, a, s');
  }

  ghost predicate WritingFrom(ss: seq<State>, i: nat, j: nat, t: nat)
    requires j < |ss|
  {
    forall k :: i <= k <= j ==> t < |ss[k].threads| && ss[k].threads[t].pc.Writing?
  }

  lemma {:induction false} WriterRun(ss: seq<State>, i: nat, j: nat, t: nat, e: Ending)
    requires Run(ss) && i <= j < |ss| && WritingFrom(ss, i, j, t)
    requires e in EndingsAt(ss[j], t)
    ensures e in EndingsAt(ss[i], t)
    decreases j
  {
    if i < j {
      RunInv(ss, j - 1);
      assert Next(ss[j - 1], ss[j]);
      WriterNarrows(ss[j - 1], ss[j], t);
      WriterRun(ss, i, j - 1, t, e);
    }
  }

  ghost function EndingOf(s: State, outcome: Outcome): Ending {
    Ending(s.status, s.config, BuiltWith(s.parts), outcome)
  }

  /** Whatever happens around it, an operation that got the mutex in state i and unlocks in
      state j leaves one of the endings of its program. */
  lemma OperationLeaves(ss: seq<State>, i: nat, j: nat, t: nat, prog: Prog, outcome: Outcome)
    requires Run(ss) && i < j < |ss| && t < |ss[i].threads| && ss[i].threads[t].pc == Locking(prog)
    requires WritingFrom(ss, i + 1, j, t) && ss[j].threads[t].pc.prog == Unlock(outcome)
    ensures EndingOf(ss[j], outcome) in Endings(prog, ss[i].status, ss[i].config, BuiltWith(ss[i].parts))
  {
    var k := i + 1;
    assert Next(ss[i], ss[k]);
    LockKeeps(ss[i], ss[k], t, prog);
    WriterRun(ss, k, j, t, EndingOf(ss[j], outcome));
  }

  /** Steps of thread t alone lead from s to s'. */
  ghost predicate Leads(s: State, t: nat, s': State, n: nat)
    decreases n
  {
    if n == 0 then s' == s else exists m :: Step(s, t, m) && Leads(m, t, s', n - 1)
  }

  lemma LeadsOn(s: State, t: nat, m: State, s': State, n: nat)
    requires Step(s, t, m) && Leads(m, t, s', n)
    ensures Leads(s, t, s', n + 1)
  {
  }

  /** One step of a writer towards a given ending. */
  ghost predicate Towards(s: State, t: nat, e: Ending, m: State)
    requires t < |s.threads| && s.threads[t].pc.Writing?
  {
    && Step(s, t, m) && |m.threads| == |s.threads| && m.threads[t].pc.Writing? && e in EndingsAt(m, t)
    && m.threads[t].pc.prog < s.threads[t].pc.prog
    && (m.handles == s.handles || s.threads[t].pc.prog.TakeGuard?)
  }

  lemma TowardsEnding(s: State, t: nat, e: Ending) returns (m: State)
    requires t < |s.threads| && s.threads[t].pc.Writing? && !s.threads[t].pc.prog.Unlock?
    requires s.threads[t].pc.prog.Poll? ==> s.handles == 0
    requires e in EndingsAt(s, t)
    ensures Towards(s, t, e, m)
  {
    var prog := s.threads[t].pc.prog;
    if prog.Build? {
      m := BuildTowards(s, t, e);
    } else if prog.Choose? {
      m := ChooseTowards(s, t, e);
    } else {
      m := StraightTowards(s, t, e);
    }
  }

  lemma BuildTowards(s: State, t: nat, e: Ending) returns (m: State)
    requires t < |s.threads| && s.threads[t].pc.Writing? && s.threads[t].pc.prog.Build? && e in EndingsAt(s, t)
    ensures Towards(s, t, e, m)
  {
    var prog := s.threads[t].pc.prog;
    if e in Endings(prog.ok, s.status, s.config, Some(prog.parameter)) {
      m := Move(s, t, Writing(prog.ok, Ready(prog.parameter))).(
        parts := Built(s.config, prog.parameter, s.builds, 1, Ids(1)), builds := s.builds + 1);
      WriterSteps(s, t, Succeed(1), m);
    } else {
      m := Move(s, t, Writing(prog.fail, Drained));
      WriterSteps(s, t, Fail, m);
    }
  }

  lemma ChooseTowards(s: State, t: nat, e: Ending) returns (m: State)
    requires t < |s.threads| && s.threads[t].pc.Writing? && s.threads[t].pc.prog.Choose? && e in EndingsAt(s, t)
    ensures Towards(s, t, e, m)
  {
    var prog, phase := s.threads[t].pc.prog, s.threads[t].pc.phase;
    if e in Endings(prog.yes, s.status, s.config, BuiltWith(s.parts)) {
      m := Move(s, t, Writing(prog.yes, phase));
      WriterSteps(s, t, Pick(true), m);
    } else {
      m := Move(s, t, Writing(prog.no, phase));
      WriterSteps(s, t, Pick(false), m);
    }
  }

  lemma StraightTowards(s: State, t: nat, e: Ending) returns (m: State)
    requires t < |s.threads| && s.threads[t].pc.Writing? && (s.threads[t].pc.prog.Poll? ==> s.handles == 0)
    requires var p := s.threads[t].pc.prog; !p.Unlock? && !p.Build? && !p.Choose?
    requires e in EndingsAt(s, t)
    ensures Towards(s, t, e, m)
  {
    var prog, phase := s.threads[t].pc.prog, s.threads[t].pc.phase;
    if prog.Mark? {
      m := Move(s, t, Writing(prog.next, MarkedPhase(phase, prog.status))).(status := prog.status);
    } else if prog.Poll? {
      m := Move(s, t, Writing(prog.next, if phase == Marked then Drained else phase));
    } else if prog.Teardown? {
      m := Move(s, t, Writing(prog.next, phase)).(parts := Unusable);
    } else if prog.Configure? {
      m := Move(s, t, Writing(prog.next, phase)).(
        config := if prog.config.Some? then prog.config.value else s.config, parts := Unusable);
    } else {
      m := MakeGuard(s, t, Writing(prog.next, if phase.Live? then phase.(guard := true) else phase));
    }
    WriterSteps(s, t, Go, m);
  }

  lemma WriterSteps(s: State, t: nat, a: Choice, s': State)
    requires t < |s.threads| && WriteStep(s, t, a, s')
    ensures Step(s, t, s')
  {
  }

  /** No poll follows a new guard. */
  predicate PollsFirst(prog: Prog) {
    match prog
    case Mark(_, next) => PollsFirst(next)
    case Poll(next) => PollsFirst(next)
    case Teardown(next) => PollsFirst(next)
    case Configure(_, next) => PollsFirst(next)
    case Build(_, ok, fail) => PollsFirst(ok) && PollsFirst(fail)
    case Choose(yes, no) => PollsFirst(yes) && PollsFirst(no)
    case TakeGuard(next) => next.Unlock?
    case Unlock(_) => true
  }

  /** The endings are exact: while nobody holds a guard, the owner of the mutex can reach
      each of them by its own steps. */
  lemma {:induction false} EndingReached(s: State, t: nat, e: Ending) returns (s': State, n: nat)
    requires t < |s.threads| && s.threads[t].pc.Writing? && PollsFirst(s.threads[t].pc.prog)
    requires s.handles == 0 || s.threads[t].pc.prog.Unlock?
    requires e in EndingsAt(s, t)
    ensures Leads(s, t, s', n) && t < |s'.threads| && s'.threads[t].pc.Writing?
    ensures s'.threads[t].pc.prog == Unlock(e.outcome) && EndingOf(s', e.outcome) == e
    decreases s.threads[t].pc.prog
  {
    if s.threads[t].pc.prog.Unlock? {
      s', n := s, 0;
    } else {
      var m := TowardsEnding(s, t, e);
      var k;
      s', k := EndingReached(m, t, e);
      LeadsOn(s, t, m, s', k);
      n := k + 1;
    }
  }

  /** The programs are such programs. */
  lemma ProgramsPollFirst(op: Operation, hasParameter: bool)
    ensures PollsFirst(Program(op)) && PollsFirst(DynamicReload(hasParameter))
  {
    var finish, failed, ok := Unlock(Finished), Unlock(ReloadFailed), TakeGuard(Unlock(Reloaded));
    ReloadPollsFirst(Some(if op.ReloadModel? then op.config else 0), false, finish, finish);
    ReloadPollsFirst(None, false, failed, failed);
    RetirePollsFirst(false, Reload(None, false, failed, failed));
    ReloadPollsFirst(None, true, ok, Recover());
    RetirePollsFirst(false, Reload(None, true, ok, Recover()));
    ReloadPollsFirst(None, true, ok, FullReload());
    RetirePollsFirst(true, finish);
    assert PollsFirst(Poll(Teardown(finish)));
  }

  lemma RetirePollsFirst(permanent: bool, next: Prog)
    requires PollsFirst(next)
    ensures PollsFirst(Retire(permanent, next))
  {
    var rest := if permanent then Mark(END_STATUS, next) else next;
    assert PollsFirst(Poll(Teardown(rest)));
  }

  lemma ReloadPollsFirst(config: Option<int>, parameter: bool, ok: Prog, fail: Prog)
    requires PollsFirst(ok) && PollsFirst(fail)
    ensures PollsFirst(Reload(config, parameter, ok, fail))
  {
    var load := LoadImpl(config, parameter, ok, fail);
    assert PollsFirst(Mark(AVAILABLE_STATUS, ok)) && PollsFirst(Mark(FAILED_STATUS, fail));
    assert PollsFirst(Build(parameter, Mark(AVAILABLE_STATUS, ok), Mark(FAILED_STATUS, fail)));
    assert PollsFirst(load);
    RetirePollsFirst(false, load);
    assert PollsFirst(Choose(Retire(false, load), load));
    assert PollsFirst(Poll(Choose(Retire(false, load), load)));
  }

  /** What an admitted request may turn out to need: nothing because it is invalid, a reload
      unless it had one, or any idle stream id, after which it may finish or be handed to a
      callback with its guard and stream id. */
  lemma RequestChoices(s: State, t: nat, hasParameter: bool, id: nat) returns (rejected: State, asking: State, inferring: State)
    requires t < |s.threads| && s.threads[t].pc.Admitted?
    ensures Step(s, t, rejected) && rejected.threads[t].pc == Leaving
    ensures !s.threads[t].pc.reloaded ==> Step(s, t, asking) && asking.threads[t].pc == Dropping(hasParameter)
    ensures s.parts.Built? && id in s.parts.idle ==>
              && Step(s, t, inferring) && inferring.threads[t].pc == Inferring && inferring.parts.Built?
              && inferring.threads[t].stream == Some(Stream(s.parts.generation, id)) && id !in inferring.parts.idle
  {
    rejected := Move(s, t, Leaving);
    assert ServeStep(s, t, Reject, rejected);
    asking := Move(s, t, Dropping(hasParameter));
    if !s.threads[t].pc.reloaded {
      assert ServeStep(s, t, AskReload(hasParameter), asking);
    }
    inferring := s;
    if s.parts.Built? && id in s.parts.idle {
      inferring := Put(s, t, s.threads[t].(pc := Inferring, stream := Some(Stream(s.parts.generation, id))))
                   .(parts := s.parts.(idle := s.parts.idle - {id}));
      assert ServeStep(s, t, TakeStream(id), inferring);
    }
  }

  lemma InferenceChoices(s: State, t: nat) returns (returning: State, handed: State)
    requires t < |s.threads| && s.threads[t].pc == Inferring
    ensures Step(s, t, returning) && returning.threads[t].pc == Returning
    ensures Step(s, t, handed) && HandsOver(s, t, handed)
    ensures var callback := handed.threads[|s.threads|];
            callback.guard == s.threads[t].guard && callback.stream == s.threads[t].stream
    ensures !handed.threads[t].guard && handed.threads[t].stream == None
  {
    var th := s.threads[t];
    returning := Move(s, t, Returning);
    assert ServeStep(s, t, Finish, returning);
    var left := th.(pc := Done(SERVED), guard := false, stream := None);
    handed := Put(s, t, left).(threads := s.threads[t := left] + [Thread(Returning, th.guard, th.stream, 0, 0)]);
    assert ServeStep(s, t, StartAsync, handed);
  }

  /** What the thread is told when it unlocks: a request goes on with its guard after a
      successful reload and is told of a failed or refused one. */
  lemma UnlockAnswers(s: State, t: nat, s': State, outcome: Outcome)
    requires Inv(s) && Next(s, s') && t < |s.threads| && s.threads[t].pc.Writing? && s.threads[t].pc.prog == Unlock(outcome)
    ensures t < |s'.threads|
    ensures s'.threads[t] == s.threads[t] ||
              match outcome
              case Reloaded => s'.threads[t].pc == Admitted(true) && s'.threads[t].guard
              case ReloadFailed => s'.threads[t].pc == Done(RELOAD_FAILED) && !s'.threads[t].guard
              case Refused => s'.threads[t].pc == Done(REFUSED) && !s'.threads[t].guard
              case Finished => s'.threads[t].pc == Done(SERVED) && !s'.threads[t].guard
  {
    assert ThreadOk(s.threads[t]);
    assert s.owner == Some(t);
    ThreadNext(s, s', t);
    if s'.threads[t] != s.threads[t] {
      var a :| WriteStep(s, t, a, s');
    }
  }

  // ---- the poll ends ----

  lemma {:induction false} HoldersPut(threads: seq<Thread>, t: nat, th: Thread)
    requires t < |threads|
    ensures Holders(threads[t := th])
            == Holders(threads) + (if Holder(th) then 1 else 0) - (if Holder(threads[t]) then 1 else 0)
  {
    var n := |threads| - 1;
    if t == n {
      assert threads[t := th][..n] == threads[..n];
    } else {
      assert threads[t := th][..n] == threads[..n][t := th];
      HoldersPut(threads[..n], t, th);
    }
  }

  lemma HoldersAppend(threads: seq<Thread>, th: Thread)
    ensures Holders(threads + [th]) == Holders(threads) + (if Holder(th) then 1 else 0)
  {
    assert (threads + [th])[..|threads|] == threads;
  }

  ghost predicate Polling(s: State, w: nat) {
    w < |s.threads| && s.threads[w].pc.Writing? && s.threads[w].pc.prog.Poll?
  }

  ghost predicate NobodyJoins(s: State, s': State) {
    && Holders(s'.threads) <= Holders(s.threads)
    && |s.threads| <= |s'.threads|
    && forall t :: 0 <= t < |s.threads| && Holder(s'.threads[t]) ==> Holder(s.threads[t])
  }

  lemma AppendJoins(s: State, th: Thread, s': State)
    requires s'.threads == s.threads + [th] && !Holder(th)
    ensures NobodyJoins(s, s')
  {
    HoldersAppend(s.threads, th);
  }

  /** While a writer polls nobody becomes a holder, except a callback in place of the
      request that started it. */
  lemma NoNewHolder(s: State, w: nat, s': State)
    requires Inv(s) && Polling(s, w) && Next(s, s')
    ensures NobodyJoins(s, s')
  {
    if t: nat :| Step(s, t, s') {
      StepHolders(s, w, t, s');
    } else if n: nat :| NewRequest(s, n, s') {
      AppendJoins(s, Thread(Acquire(n, false), false, None, 0, n), s');
    } else {
      var op :| NewOperation(s, op, s');
      AppendJoins(s, Thread(Locking(Program(op)), false, None, 0, 0), s');
    }
  }

  lemma StepHolders(s: State, w: nat, t: nat, s': State)
    requires Inv(s) && Polling(s, w) && Step(s, t, s')
    ensures NobodyJoins(s, s')
  {
    StepChanges(s, w, t, s');
    StepAhead(s, t, s');
    ChangesJoin(s, t, s');
  }

  lemma ChangesJoin(s: State, t: nat, s': State)
    requires t < |s.threads| <= |s'.threads| && (HandsOver(s, t, s') || s'.threads == s.threads[t := s'.threads[t]])
    requires Holder(s'.threads[t]) ==> Holder(s.threads[t])
    ensures NobodyJoins(s, s')
  {
    HoldersPut(s.threads, t, s'.threads[t]);
    if HandsOver(s, t, s') {
      HoldersAppend(s.threads[t := s'.threads[t]], s'.threads[|s.threads|]);
    }
  }

  /** Thread t starts a callback that takes its place. */
  ghost predicate HandsOver(s: State, t: nat, s': State) {
    && t < |s.threads| && s.threads[t].pc == Inferring && |s'.threads| == |s.threads| + 1
    && s'.threads == s.threads[t := s'.threads[t]] + [s'.threads[|s.threads|]]
    && s'.threads[t].pc == Done(SERVED) && s'.threads[|s.threads|].pc == Returning
  }

  /** The threads after a step: only thread t has changed, and it has fewer steps ahead. */
  lemma StepAhead(s: State, t: nat, s': State)
    requires Step(s, t, s')
    ensures HandsOver(s, t, s') || s'.threads == s.threads[t := s'.threads[t]]
    ensures Ahead(s'.threads[t].pc) + (if HandsOver(s, t, s') then 2 else 0) < Ahead(s.threads[t].pc)
  {
    if WaitStep(s, t, s') {
      WaitChanges(s, t, s');
    } else if a :| ServeStep(s, t, a, s') {
      ServeChanges(s, t, a, s');
    } else {
      var a :| WriteStep(s, t, a, s');
      WriteChanges(s, t, a, s');
    }
  }

  /** While w polls nobody becomes a holder by its own step. */
  lemma StepChanges(s: State, w: nat, t: nat, s': State)
    requires Inv(s) && Polling(s, w) && Step(s, t, s')
    ensures t < |s'.threads| && (Holder(s'.threads[t]) ==> Holder(s.threads[t]))
  {
    if WaitStep(s, t, s') {
      WaitChanges(s, t, s');
    } else if a :| ServeStep(s, t, a, s') {
      ServeChanges(s, t, a, s');
    } else {
      var a :| WriteStep(s, t, a, s');
      PollerWrites(s, w, t, a, s');
    }
  }

  lemma WaitChanges(s: State, t: nat, s': State)
    requires t < |s.threads| && WaitStep(s, t, s')
    ensures s'.threads == s.threads[t := s'.threads[t]] && !HandsOver(s, t, s')
    ensures Holder(s'.threads[t]) ==> s.status.state == AVAILABLE
    ensures Ahead(s'.threads[t].pc) < Ahead(s.threads[t].pc)
  {
    WaitChangesOne(s, t, s');
  }

  /** The only writer that can move is the one that polls. */
  lemma PollerWrites(s: State, w: nat, t: nat, a: Choice, s': State)
    requires OwnerOk(s) && Polling(s, w) && t < |s.threads| && WriteStep(s, t, a, s')
    ensures t == w && !Holder(s'.threads[t])
  {
  }

  lemma WriteChanges(s: State, t: nat, a: Choice, s': State)
    requires t < |s.threads| && WriteStep(s, t, a, s')
    ensures s'.threads == s.threads[t := s'.threads[t]] && !HandsOver(s, t, s')
    ensures Ahead(s'.threads[t].pc) < Ahead(s.threads[t].pc)
  {
    if s.threads[t].pc.Writing? && s.threads[t].pc.prog.Unlock? {
      assert s'.threads[t].pc == Left(s.threads[t].pc.prog.outcome);
    }
  }

  lemma ServeChanges(s: State, t: nat, a: Serve, s': State)
    requires t < |s.threads| && ServeStep(s, t, a, s')
    ensures HandsOver(s, t, s') || s'.threads == s.threads[t := s'.threads[t]]
    ensures Holder(s'.threads[t]) ==> Holder(s.threads[t])
    ensures Ahead(s'.threads[t].pc) + (if HandsOver(s, t, s') then 2 else 0) < Ahead(s.threads[t].pc)
  {
    if s.threads[t].pc.Dropping? {
      DroppingChanges(s, t, a, s');
    } else {
      OtherServeChanges(s, t, a, s');
    }
  }

  lemma DroppingChanges(s: State, t: nat, a: Serve, s': State)
    requires t < |s.threads| && s.threads[t].pc.Dropping? && ServeStep(s, t, a, s')
    ensures s'.threads == s.threads[t := s'.threads[t]] && !HandsOver(s, t, s') && !Holder(s'.threads[t])
    ensures Ahead(s'.threads[t].pc) < Ahead(s.threads[t].pc)
  {
    var prog := DynamicReload(s.threads[t].pc.hasParameter);
    ReloadSizes(s.threads[t].pc.hasParameter);
    assert s'.threads[t].pc == Locking(prog);
  }

  lemma OtherServeChanges(s: State, t: nat, a: Serve, s': State)
    requires t < |s.threads| && !s.threads[t].pc.Dropping? && ServeStep(s, t, a, s')
    ensures HandsOver(s, t, s') || s'.threads == s.threads[t := s'.threads[t]]
    ensures Holder(s'.threads[t]) ==> Holder(s.threads[t])
    ensures Ahead(s'.threads[t].pc) + (if HandsOver(s, t, s') then 2 else 0) < Ahead(s.threads[t].pc)
  {
  }

  /** An upper bound on the steps of a program, and of the request it may lead back to. */
  function Size(prog: Prog): (n: nat)
    ensures n >= 5
  {
    match prog
    case Mark(_, next) => 1 + Size(next)
    case Poll(next) => 1 + Size(next)
    case Teardown(next) => 1 + Size(next)
    case Configure(_, next) => 1 + Size(next)
    case Build(_, ok, fail) => 1 + Size(ok) + Size(fail)
    case Choose(yes, no) => 1 + Size(yes) + Size(no)
    case TakeGuard(next) => 1 + Size(next)
    case Unlock(_) => 5
  }

  const RELOAD_SIZE := 232

  lemma SizeOfReload(config: Option<int>, parameter: bool, ok: Prog, fail: Prog)
    ensures Size(Reload(config, parameter, ok, fail)) == 14 + 2 * Size(ok) + 2 * Size(fail)
  {
    var load := LoadImpl(config, parameter, ok, fail);
    var build := Build(parameter, Mark(AVAILABLE_STATUS, ok), Mark(FAILED_STATUS, fail));
    assert Size(build) == 3 + Size(ok) + Size(fail);
    assert Size(load) == 1 + Size(build);
    SizeOfRetire(load);
    var choose := Choose(Retire(false, load), load);
    assert Size(choose) == 1 + Size(Retire(false, load)) + Size(load);
    assert Size(Poll(choose)) == 1 + Size(choose);
  }

  lemma SizeOfRetire(next: Prog)
    ensures Size(Retire(false, next)) == 3 + Size(next)
  {
    assert Size(Teardown(next)) == 1 + Size(next);
    assert Size(Poll(Teardown(next))) == 2 + Size(next);
  }

  lemma ReloadSizes(hasParameter: bool)
    ensures Size(DynamicReload(hasParameter)) <= RELOAD_SIZE
  {
    if hasParameter {
      var failed, ok := Unlock(ReloadFailed), TakeGuard(Unlock(Reloaded));
      assert Size(failed) == 5 && Size(ok) == 6;
      SizeOfReload(None, false, failed, failed);
      SizeOfRetire(Reload(None, false, failed, failed));
      SizeOfReload(None, true, ok, Recover());
      SizeOfRetire(Reload(None, true, ok, Recover()));
      SizeOfReload(None, true, ok, FullReload());
    }
  }

  /** An upper bound on the steps a thread takes before it ends. A request may ask for a
      reload once. */
  function Ahead(pc: Pc): nat {
    match pc
    case Acquire(left, _) => RELOAD_SIZE + 5 * left + 10
    case Check(left, _) => RELOAD_SIZE + 5 * left + 9
    case Release(left, _) => RELOAD_SIZE + 5 * left + 8
    case After(left) => RELOAD_SIZE + 5 * left + 7
    case Wait(left) => RELOAD_SIZE + 5 * left + 6
    case Final => RELOAD_SIZE + 5
    case Admitted(reloaded) => if reloaded then 4 else RELOAD_SIZE + 4
    case Inferring => 3
    case Returning => 2
    case Leaving => 1
    case Dropping(_) => RELOAD_SIZE + 2
    case Locking(prog) => Size(prog) + 1
    case Writing(prog, _) => Size(prog)
    case Done(_) => 0
  }

  function Rank(threads: seq<Thread>): nat {
    if threads == [] then 0
    else Rank(threads[..|threads| - 1]) + Ahead(threads[|threads| - 1].pc)
  }

  lemma {:induction false} RankPut(threads: seq<Thread>, t: nat, th: Thread)
    requires t < |threads|
    ensures Rank(threads[t := th]) == Rank(threads) + Ahead(th.pc) - Ahead(threads[t].pc)
  {
    var n := |threads| - 1;
    if t == n {
      assert threads[t := th][..n] == threads[..n];
    } else {
      assert threads[t := th][..n] == threads[..n][t := th];
      RankPut(threads[..n], t, th);
    }
  }

  lemma RankAppend(threads: seq<Thread>, th: Thread)
    ensures Rank(threads + [th]) == Rank(threads) + Ahead(th.pc)
  {
    assert (threads + [th])[..|threads|] == threads;
  }

  /** While a writer polls, every step of another thread brings the poll nearer to its end. */
  lemma DrainDecreases(s: State, w: nat, t: nat, s': State)
    requires Inv(s) && Polling(s, w) && t != w && Step(s, t, s')
    ensures Rank(s'.threads) < Rank(s.threads) && Polling(s', w)
  {
    StepAhead(s, t, s');
    ChangesDrain(s, t, s');
  }

  lemma ChangesDrain(s: State, t: nat, s': State)
    requires t < |s.threads| <= |s'.threads| && (HandsOver(s, t, s') || s'.threads == s.threads[t := s'.threads[t]])
    requires Ahead(s'.threads[t].pc) + (if HandsOver(s, t, s') then 2 else 0) < Ahead(s.threads[t].pc)
    ensures Rank(s'.threads) < Rank(s.threads)
  {
    RankPut(s.threads, t, s'.threads[t]);
    if HandsOver(s, t, s') {
      RankAppend(s.threads[t := s'.threads[t]], s'.threads[|s.threads|]);
    }
  }

  ghost predicate OtherStep(s: State, w: nat, s': State) {
    exists t :: t != w && Step(s, t, s')
  }

  ghost predicate OthersCanMove(s: State, w: nat) {
    exists s' :: OtherStep(s, w, s')
  }

  /** A request turns out to be invalid. */
  predicate Rejects(s: State, t: nat, s': State)
    requires t < |s.threads|
  {
    s.threads[t].pc.Admitted? && s' == Move(s, t, Leaving)
  }

  lemma MoveStep(s: State, t: nat)
    requires Inv(s) && t < |s.threads| && s.threads[t].guard && !s.threads[t].pc.Writing?
    requires s.threads[t].pc.Admitted? ==> s.parts.Built? && s.parts.idle != {}
    ensures exists s' :: Step(s, t, s') && !Rejects(s, t, s')
  {
    var th := s.threads[t];
    assert ThreadOk(th);
    match th.pc
    case Check(left, again) =>
      var s' := Move(s, t, if s.status.state == AVAILABLE then Admitted(false) else Release(left, again));
      assert WaitStep(s, t, s') && Step(s, t, s');
    case Release(left, again) =>
      var s' := ResetGuard(s, t, if again then After(left) else Wait(left));
      assert WaitStep(s, t, s') && Step(s, t, s');
    case Admitted(_) =>
      var id :| id in s.parts.idle;
      var s' := Put(s, t, th.(pc := Inferring, stream := Some(Stream(s.parts.generation, id))))
                .(parts := s.parts.(idle := s.parts.idle - {id}));
      assert ServeStep(s, t, TakeStream(id), s') && Step(s, t, s');
    case Inferring =>
      var s' := Move(s, t, Returning);
      assert ServeStep(s, t, Finish, s') && Step(s, t, s');
    case Returning =>
      var s' := Put(s, t, th.(pc := Leaving, stream := None)).(parts := Returned(s.parts, th.stream.value));
      assert ServeStep(s, t, Finish, s') && Step(s, t, s');
    case Leaving =>
      var s' := ResetGuard(s, t, Done(SERVED));
      assert ServeStep(s, t, Finish, s') && Step(s, t, s');
    case Dropping(hasParameter) =>
      var s' := ResetGuard(s, t, Locking(DynamicReload(hasParameter)));
      assert ServeStep(s, t, Finish, s') && Step(s, t, s');
  }

  /** Whoever holds a guard can move, or waits for a stream id of a thread that can. */
  lemma GuardMoves(s: State, t: nat) returns (mover: nat)
    requires Inv(s) && t < |s.threads| && s.threads[t].guard && !s.threads[t].pc.Writing?
    ensures mover < |s.threads| && !s.threads[mover].pc.Writing?
    ensures exists s' :: Step(s, mover, s') && !Rejects(s, mover, s')
  {
    assert ThreadOk(s.threads[t]);
    mover := t;
    if s.threads[t].pc.Admitted? {
      assert Holder(s.threads[t]);
      if s.parts.idle == {} {
        assert Taken(s, 0);
        mover :| 0 <= mover < |s.threads| && s.threads[mover].stream == Some(Stream(s.parts.generation, 0));
        assert ThreadOk(s.threads[mover]);
      }
    }
    MoveStep(s, mover);
  }

  /** A poll is never stuck: as long as the counter is not zero some other thread can
      take a step; a request waiting for a stream id waits for a thread that has one. */
  lemma DrainContinues(s: State, w: nat)
    requires Inv(s) && Polling(s, w) && s.handles > 0
    ensures OthersCanMove(s, w)
  {
    var t := SomeGuard(s.threads);
    assert ThreadOk(s.threads[t]) && ThreadOk(s.threads[w]);
    assert !s.threads[t].pc.Writing?;
    var mover := GuardMoves(s, t);
    var s' :| Step(s, mover, s');
    assert OtherStep(s, w, s');
  }

  /** A run in which only threads other than w move and no request arrives. */
  ghost predicate Others(ss: seq<State>, w: nat) {
    ss != [] && forall i, j :: 0 <= i < j < |ss| && j == i + 1 ==> OtherStep(ss[i], w, ss[j])
  }

  lemma OtherStepDrains(s: State, w: nat, s': State)
    requires Inv(s) && Polling(s, w) && OtherStep(s, w, s')
    ensures Inv(s') && Polling(s', w) && Rank(s'.threads) < Rank(s.threads)
  {
    var t :| t != w && Step(s, t, s');
    NextInv(s, s');
    DrainDecreases(s, w, t, s');
  }

  lemma PollStands(s: State, w: nat)
    requires Inv(s) && Polling(s, w)
    ensures s.handles == 0 || OthersCanMove(s, w)
  {
    if s.handles != 0 {
      DrainContinues(s, w);
    }
  }

  /** The poll ends. Without new requests the other threads can take only finitely many
      steps while w polls, and when they can take none the counter is zero. */
  lemma {:induction false} PollEnds(ss: seq<State>, w: nat)
    requires Others(ss, w) && Inv(ss[0]) && Polling(ss[0], w)
    ensures |ss| - 1 + Rank(ss[|ss| - 1].threads) <= Rank(ss[0].threads)
    ensures Inv(ss[|ss| - 1]) && Polling(ss[|ss| - 1], w)
    ensures ss[|ss| - 1].handles == 0 || OthersCanMove(ss[|ss| - 1], w)
  {
    var n := |ss| - 1;
    if n > 0 {
      PollEnds(ss[..n], w);
      assert ss[..n][n - 1] == ss[n - 1];
      OtherStepDrains(ss[n - 1], w, ss[n]);
    }
    PollStands(ss[n], w);
  }

  // ---- every run comes to rest ----

  /** Nothing can move, unless an admitted request were found invalid. */
  ghost predicate AtRest(s: State) {
    forall t, s' :: Step(s, t, s') ==> Rejects(s, t, s')
  }

  lemma NotAtRest(s: State, t: nat, s': State)
    requires Step(s, t, s') && !Rejects(s, t, s')
    ensures !AtRest(s)
  {
  }

  lemma WaiterMoves(s: State, t: nat)
    requires t < |s.threads| && var pc := s.threads[t].pc; pc.Acquire? || pc.After? || pc.Wait? || pc.Final?
    ensures !AtRest(s)
  {
    var th := s.threads[t];
    var s' :=
      if th.pc.Acquire? then
        MakeGuard(Put(s, t, th.(acquired := th.acquired + 1)), t, Check(th.pc.left, th.pc.again))
      else if th.pc.After? then
        Move(s, t, if s.status.state.Rank() > AVAILABLE.Rank() then Done(NOT_LOADED_ANYMORE) else Wait(th.pc.left))
      else if th.pc.Wait? then
        Move(s, t, if th.pc.left == 0 then Final else Acquire(th.pc.left - 1, true))
      else
        Move(s, t, Done(UnloadedResult(s.status)));
    assert WaitStep(s, t, s');
    NotAtRest(s, t, s');
  }

  lemma WriterMoves(s: State, t: nat)
    requires t < |s.threads| && s.threads[t].pc.Writing? && (s.threads[t].pc.prog.Poll? ==> s.handles == 0)
    ensures !AtRest(s)
  {
    var phase := s.threads[t].pc.phase;
    var a, s' :=
      match s.threads[t].pc.prog
      case Build(_, _, _) => Fail
      case Choose(_, _) => Pick(true)
      case _ => Go,
      match s.threads[t].pc.prog
      case Mark(status, next) => Move(s, t, Writing(next, MarkedPhase(phase, status))).(status := status)
      case Poll(next) => Move(s, t, Writing(next, if phase == Marked then Drained else phase))
      case Teardown(next) => Move(s, t, Writing(next, phase)).(parts := Unusable)
      case Configure(config, next) =>
        Move(s, t, Writing(next, phase)).(config := if config.Some? then config.value else s.config, parts := Unusable)
      case Build(_, _, fail) => Move(s, t, Writing(fail, Drained))
      case Choose(yes, _) => Move(s, t, Writing(yes, phase))
      case TakeGuard(next) => MakeGuard(s, t, Writing(next, if phase.Live? then phase.(guard := true) else phase))
      case Unlock(outcome) => Move(s, t, Left(outcome)).(owner := None);
    assert WriteStep(s, t, a, s');
    NotAtRest(s, t, s');
  }

  lemma LockerMoves(s: State, t: nat)
    requires t < |s.threads| && s.threads[t].pc.Locking? && s.owner == None
    ensures !AtRest(s)
  {
    var s' := Move(s, t, Writing(s.threads[t].pc.prog, Open)).(owner := Some(t));
    assert WriteStep(s, t, Go, s');
    NotAtRest(s, t, s');
  }

  /** At rest nobody but the owner of the mutex has a guard, so no poll waits. */
  lemma RestHasNoGuards(s: State)
    requires Inv(s) && AtRest(s)
    ensures forall t :: 0 <= t < |s.threads| && s.threads[t].guard ==> s.threads[t].pc.Writing?
  {
    if t :| 0 <= t < |s.threads| && s.threads[t].guard && !s.threads[t].pc.Writing? {
      var mover := GuardMoves(s, t);
    }
  }

  lemma PollerAlone(s: State, w: nat)
    requires Inv(s) && s.owner == Some(w)
    requires forall t :: 0 <= t < |s.threads| && s.threads[t].guard ==> s.threads[t].pc.Writing?
    ensures s.threads[w].pc.prog.Poll? ==> s.handles == 0
  {
    if s.handles > 0 {
      var t := SomeGuard(s.threads);
      assert s.owner == Some(t);
      assert ThreadOk(s.threads[t]);
    }
  }

  lemma RestHasNoOwner(s: State)
    requires Inv(s) && AtRest(s)
    ensures s.owner == None
  {
    RestHasNoGuards(s);
    if s.owner.Some? {
      var w := s.owner.value;
      PollerAlone(s, w);
      WriterMoves(s, w);
    }
  }

  ghost predicate AllDone(s: State) {
    forall t :: 0 <= t < |s.threads| ==> s.threads[t].pc.Done?
  }

  /** No deadlock. When nothing can move, every request has its result, every operation is
      done, the mutex is free and the counter is zero. */
  lemma RestIsDone(s: State)
    requires Inv(s) && AtRest(s)
    ensures AllDone(s) && s.owner == None && s.handles == 0
  {
    RestHasNoGuards(s);
    RestHasNoOwner(s);
    if s.handles > 0 {
      var t := SomeGuard(s.threads);
    }
    forall t | 0 <= t < |s.threads| ensures s.threads[t].pc.Done? {
      assert ThreadOk(s.threads[t]);
      var pc := s.threads[t].pc;
      if pc.Acquire? || pc.After? || pc.Wait? || pc.Final? {
        WaiterMoves(s, t);
      }
      if pc.Locking? {
        LockerMoves(s, t);
      }
    }
  }

  ghost predicate StepRun(ss: seq<State>) {
    ss != [] && forall i, j :: 0 <= i < j < |ss| && j == i + 1 ==> SomeStep(ss[i], ss[j])
  }

  ghost predicate SomeStep(s: State, s': State) {
    exists t :: Step(s, t, s')
  }

  lemma SomeStepDrains(s: State, s': State)
    requires Inv(s) && SomeStep(s, s')
    ensures Inv(s') && Rank(s'.threads) < Rank(s.threads)
  {
    var t :| Step(s, t, s');
    NextInv(s, s');
    StepAhead(s, t, s');
    ChangesDrain(s, t, s');
  }

  /** Without new requests and operations every run is finite, so all threads get done:
      requests are answered, and retirements and reloads do not wait for ever. */
  lemma {:induction false} ComesToRest(ss: seq<State>)
    requires StepRun(ss) && Inv(ss[0])
    ensures |ss| - 1 + Rank(ss[|ss| - 1].threads) <= Rank(ss[0].threads)
    ensures Inv(ss[|ss| - 1])
    ensures AtRest(ss[|ss| - 1]) ==> AllDone(ss[|ss| - 1])
  {
    var n := |ss| - 1;
    if n > 0 {
      ComesToRest(ss[..n]);
      assert ss[..n][n - 1] == ss[n - 1];
      SomeStepDrains(ss[n - 1], ss[n]);
    }
    if AtRest(ss[n]) {
      RestIsDone(ss[n]);
    }
  }
}
