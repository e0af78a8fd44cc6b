/** The request queue of an executor thread: any number of producers, the executor
    loop and the destructor of its wrapper, as interleaved atomic steps. */
module Executor {
  // ---- state ----

  /** Where the executor thread is. From Test and Doze on it holds the mutex; Doze has
      found the wait predicate false and is about to sleep. */
  datatype ExecPc = Loop | Report | Query | Complete | Pop | Take | Work(request: int)
                  | Enter | Test | Doze | Asleep | Wake | Ended

  datatype ProducerPc = Begin | WantLock | Push | Notify | Unlock | Finished | Rejected

  datatype DestructorPc = Idle | WantLockToNotify | NotifyEnd | UnlockEnd | Join | Destroyed

  datatype Producer = Producer(pc: ProducerPc, request: int)

  datatype Owner = Nobody | Executor | ProducerThread(i: nat) | Destructor

  /** "early" tells the two kinds of executors apart: those that take a request off the
      queue before they process it and those that do so afterwards. "accepted" and
      "completed" are histories. */
  datatype State = State(
    early: bool,
    queue: seq<int>,
    mutex: Owner,
    stop: bool,
    exec: ExecPc,
    producers: seq<Producer>,
    destructor: DestructorPc,
    accepted: seq<int>,
    completed: seq<int>)

  // ---- steps ----

  /** notify_one: the executor is the only thread that waits. */
  function Notified(exec: ExecPc): ExecPc {
    if exec == Asleep then Wake else exec
  }

  predicate ExecStep(s: State, s': State) {
    match s.exec
    case Loop => s' == s.(exec := if s.stop then Ended else Report)
    case Report => s.mutex == Nobody && s' == s.(exec := Query)
    case Query =>
      && s.mutex == Nobody
      && s' == s.(exec := if s.queue == [] then Enter else if s.early then Take else Complete)
    case Complete =>
      s.queue != [] && s' == s.(exec := Pop, completed := s.completed + [s.queue[0]])
    case Pop =>
      s.mutex == Nobody && s.queue != [] && s' == s.(exec := Loop, queue := s.queue[1..])
    case Take =>
      && s.mutex == Nobody
      && s' == if s.queue == [] then s.(exec := Loop) else s.(exec := Work(s.queue[0]), queue := s.queue[1..])
    case Work(request) => s' == s.(exec := Loop, completed := s.completed + [request])
    case Enter => s.mutex == Nobody && s' == s.(exec := Test, mutex := Executor)
    case Test =>
      s' == if s.queue != [] || s.stop then s.(exec := Loop, mutex := Nobody) else s.(exec := Doze)
    case Doze => s' == s.(exec := Asleep, mutex := Nobody)
    case Asleep => false
    case Wake => s.mutex == Nobody && s' == s.(exec := Test, mutex := Executor)
    case Ended => false
  }

  predicate SpuriousWakeUp(s: State, s': State) {
    s.exec == Asleep && s' == s.(exec := Wake)
  }

  function PutProducer(s: State, i: nat, pc: ProducerPc): State
    requires i < |s.producers|
  {
    s.(producers := s.producers[i := s.producers[i].(pc := pc)])
  }

  predicate ProducerStep(s: State, i: nat, s': State)
    requires i < |s.producers|
  {
    var p := s.producers[i];
    match p.pc
    case Begin => s' == PutProducer(s, i, if s.stop then Rejected else WantLock)
    case WantLock => s.mutex == Nobody && s' == PutProducer(s, i, Push).(mutex := ProducerThread(i))
    case Push => s' == PutProducer(s, i, Notify).(queue := s.queue + [p.request], accepted := s.accepted + [p.request])
    case Notify => s' == PutProducer(s, i, Unlock).(exec := Notified(s.exec))
    case Unlock => s' == PutProducer(s, i, Finished).(mutex := Nobody)
    case _ => false
  }

  predicate SetStop(s: State, s': State) {
    s.destructor == Idle && s' == s.(stop := true, destructor := WantLockToNotify)
  }

  predicate DestructorStep(s: State, s': State) {
    match s.destructor
    case WantLockToNotify => s.mutex == Nobody && s' == s.(destructor := NotifyEnd, mutex := Destructor)
    case NotifyEnd => s' == s.(destructor := UnlockEnd, exec := Notified(s.exec))
    case UnlockEnd => s' == s.(destructor := Join, mutex := Nobody)
    case Join => s.exec == Ended && s' == s.(destructor := Destroyed)
    case _ => false
  }

  /** A step of the program itself: not a spurious wake-up, not the decision to stop. */
  ghost predicate Step(s: State, s': State) {
    || ExecStep(s, s')
    || (exists i: nat :: i < |s.producers| && ProducerStep(s, i, s'))
    || DestructorStep(s, s')
  }

  ghost predicate Next(s: State, s': State) {
    Step(s, s') || SpuriousWakeUp(s, s') || SetStop(s, s')
  }

  predicate Initial(s: State) {
    && s.queue == [] && s.mutex == Nobody && !s.stop && s.exec == Loop && s.destructor == Idle
    && s.accepted == [] && s.completed == []
    && forall i :: 0 <= i < |s.producers| ==> s.producers[i].pc == Begin
  }

  // ---- the invariant ----

  predicate Locks(pc: ProducerPc) {
    pc == Push || pc == Notify || pc == Unlock
  }

  ghost predicate MutexOk(s: State) {
    && (s.mutex == Executor <==> s.exec == Test || s.exec == Doze)
    && (s.mutex == Destructor <==> s.destructor == NotifyEnd || s.destructor == UnlockEnd)
    && (forall i: nat :: i < |s.producers| ==> (s.mutex == ProducerThread(i) <==> Locks(s.producers[i].pc)))
    && (s.mutex.ProducerThread? ==> s.mutex.i < |s.producers|)
  }

  /** The requests that were accepted and not completed, oldest first. */
  function Pending(s: State): seq<int> {
    match s.exec
    case Pop => if s.queue == [] then [] else s.queue[1..]
    case Work(request) => [request] + s.queue
    case _ => s.queue
  }

  /** A producer is about to notify, while it holds the mutex. */
  predicate PushedUnnotified(s: State) {
    && s.mutex.ProducerThread? && s.mutex.i < |s.producers|
    && s.producers[s.mutex.i].pc == Notify
  }

  /** What the places of executor and destructor say about queue and stop flag. */
  ghost predicate ControlOk(s: State) {
    && (s.stop <==> s.destructor != Idle)
    && (s.exec == Doze ==> s.queue == [] && (s.stop ==> s.destructor == WantLockToNotify))
    && (s.exec == Asleep ==>
          && (s.queue != [] ==> PushedUnnotified(s))
          && (s.stop ==> s.destructor == WantLockToNotify || s.destructor == NotifyEnd))
    && (s.exec == Complete || s.exec == Pop || s.exec == Take ==> s.queue != [])
    && (s.exec == Ended ==> s.stop)
    && (s.destructor == Destroyed ==> s.exec == Ended)
  }

  ghost predicate HistoryOk(s: State) {
    s.accepted == s.completed + Pending(s)
  }

  /** How many producers have put this request into the queue. */
  function Submitted(ps: seq<Producer>, request: int): nat {
    if ps == [] then 0 else Submitted(ps[..|ps| - 1], request) + Share(ps[|ps| - 1], request)
  }

  function Share(p: Producer, request: int): nat {
    if p.request == request && (p.pc == Notify || p.pc == Unlock || p.pc == Finished) then 1 else 0
  }

  /** A producer is turned away only after the stop flag was set, and the others have their
      requests accepted, each of them once. */
  ghost predicate RequestsOk(s: State) {
    && (forall i :: 0 <= i < |s.producers| && s.producers[i].pc == Rejected ==> s.stop)
    && (forall request :: multiset(s.accepted)[request] == Submitted(s.producers, request))
  }

  ghost predicate Inv(s: State) {
    MutexOk(s) && ControlOk(s) && HistoryOk(s) && RequestsOk(s)
  }

  lemma {:induction false} NoneSubmitted(ps: seq<Producer>, request: int)
    requires forall i :: 0 <= i < |ps| ==> ps[i].pc == Begin
    ensures Submitted(ps, request) == 0
  {
    if ps != [] {
      NoneSubmitted(ps[..|ps| - 1], request);
    }
  }

  lemma {:induction false} SubmittedPut(ps: seq<Producer>, i: nat, p: Producer, request: int)
    requires i < |ps|
    ensures Submitted(ps[i := p], request) == Submitted(ps, request) + Share(p, request) - Share(ps[i], request)
  {
    var n := |ps| - 1;
    if i == n {
      assert ps[i := p][..n] == ps[..n];
    } else {
      assert ps[i := p][..n] == ps[..n][i := p];
      SubmittedPut(ps[..n], i, p, request);
    }
  }

  lemma InitialInv(s: State)
    requires Initial(s)
    ensures Inv(s)
  {
    forall request ensures Submitted(s.producers, request) == 0 {
      NoneSubmitted(s.producers, request);
    }
  }

  lemma ExecMutex(s: State, s': State)
    requires MutexOk(s) && ExecStep(s, s')
    ensures MutexOk(s')
  {
  }

  lemma ExecControl(s: State, s': State)
    requires MutexOk(s) && ControlOk(s) && ExecStep(s, s')
    ensures ControlOk(s')
  {
  }

  lemma MoveFirst(done: seq<int>, queue: seq<int>)
    requires queue != []
    ensures done + queue == (done + [queue[0]]) + queue[1..] && queue == [queue[0]] + queue[1..]
  {
  }

  lemma MoveOne(done: seq<int>, request: int, queue: seq<int>)
    ensures done + ([request] + queue) == done + [request] + queue
  {
  }

  lemma ExecHistory(s: State, s': State)
    requires ControlOk(s) && HistoryOk(s) && ExecStep(s, s')
    ensures HistoryOk(s')
  {
    match s.exec
    case Complete =>
      MoveFirst(s.completed, s.queue);
      assert Pending(s') == s.queue[1..];
    case Take =>
      MoveFirst(s.completed, s.queue);
      assert Pending(s') == s.queue;
    case Work(request) =>
      MoveOne(s.completed, request, s.queue);
    case _ =>
  }

  lemma ProducerMutex(s: State, i: nat, s': State)
    requires MutexOk(s) && i < |s.producers| && ProducerStep(s, i, s')
    ensures MutexOk(s')
    ensures s.producers[i].pc == Push ==> s.exec != Test && s.exec != Doze && s.destructor != NotifyEnd
  {
    assert s.mutex == ProducerThread(i) <==> Locks(s.producers[i].pc);
    if Locks(s.producers[i].pc) {
      assert forall j: nat :: j < |s.producers| && j != i ==> !Locks(s.producers[j].pc);
    }
  }

  lemma ProducerControl(s: State, i: nat, s': State)
    requires Inv(s) && i < |s.producers| && ProducerStep(s, i, s')
    ensures ControlOk(s')
  {
    ProducerMutex(s, i, s');
    assert s.mutex == ProducerThread(i) <==> Locks(s.producers[i].pc);
  }

  lemma ProducerHistory(s: State, i: nat, s': State)
    requires ControlOk(s) && HistoryOk(s) && i < |s.producers| && ProducerStep(s, i, s')
    ensures HistoryOk(s')
  {
    if s.producers[i].pc == Push {
      var r := s.producers[i].request;
      if s.exec == Pop {
        assert (s.queue + [r])[1..] == s.queue[1..] + [r];
      }
      assert Pending(s') == Pending(s) + [r];
    }
  }

  /** Only its own place changes in the step of a producer, and one request is accepted
      with every push. */
  lemma ProducerMove(s: State, i: nat, s': State)
    requires i < |s.producers| && ProducerStep(s, i, s')
    ensures |s'.producers| == |s.producers| && s'.producers == s.producers[i := s'.producers[i]]
    ensures s'.producers[i].request == s.producers[i].request && s'.stop == s.stop
    ensures s'.producers[i].pc == Rejected ==> s.stop
    ensures s.stop && s.producers[i].pc == Begin ==> s'.producers[i].pc == Rejected
    ensures s.producers[i].pc != Rejected
    ensures s'.accepted == if s.producers[i].pc == Push then s.accepted + [s.producers[i].request] else s.accepted
    ensures forall request :: Share(s'.producers[i], request) - Share(s.producers[i], request)
                              == if s.producers[i].pc == Push && s.producers[i].request == request then 1 else 0
  {
  }

  lemma ProducerRequests(s: State, i: nat, s': State)
    requires RequestsOk(s) && i < |s.producers| && ProducerStep(s, i, s')
    ensures RequestsOk(s')
  {
    ProducerMove(s, i, s');
    forall request ensures multiset(s'.accepted)[request] == Submitted(s'.producers, request) {
      SubmittedPut(s.producers, i, s'.producers[i], request);
    }
    forall k | 0 <= k < |s.producers| && s'.producers[k].pc == Rejected ensures s'.stop {
      assert k != i ==> s'.producers[k] == s.producers[k];
    }
  }

  /** Executor and destructor leave producers and accepted requests alone. */
  lemma OtherRequests(s: State, s': State)
    requires RequestsOk(s) && (ExecStep(s, s') || DestructorStep(s, s') || SetStop(s, s') || SpuriousWakeUp(s, s'))
    ensures RequestsOk(s')
  {
    assert s'.producers == s.producers && s'.accepted == s.accepted;
  }

  lemma DestructorInv(s: State, s': State)
    requires Inv(s) && (DestructorStep(s, s') || SetStop(s, s'))
    ensures Inv(s')
  {
    OtherRequests(s, s');
  }

  lemma NextInv(s: State, s': State)
    requires Inv(s) && Next(s, s')
    ensures Inv(s')
  {
    if ExecStep(s, s') {
      ExecMutex(s, s');
      ExecControl(s, s');
      ExecHistory(s, s');
      OtherRequests(s, s');
    } else if i: nat :| i < |s.producers| && ProducerStep(s, i, s') {
      ProducerMutex(s, i, s');
      ProducerControl(s, i, s');
      ProducerHistory(s, i, s');
      ProducerRequests(s, i, s');
    } else if DestructorStep(s, s') || SetStop(s, s') {
      DestructorInv(s, s');
    } else {
      OtherRequests(s, s');
    }
  }

  ghost predicate Run(ss: seq<State>) {
    && ss != [] && Initial(ss[0])
    && forall i, j :: 0 <= i < j < |ss| && j == i + 1 ==> Next(ss[i], ss[j])
  }

  lemma {:induction false} RunInv(ss: seq<State>, i: nat)
    requires Run(ss) && i < |ss|
    ensures Inv(ss[i])
  {
    if i == 0 {
      InitialInv(ss[0]);
    } else {
      RunInv(ss, i - 1);
      NextInv(ss[i - 1], ss[i]);
    }
  }

  /** No wake-up is lost. The executor is never asleep while the queue is not empty,
      unless the producer that filled it still holds the mutex and is about to notify;
      and it is never asleep once the destructor's notify has returned. */
  lemma NoLostWakeUp(ss: seq<State>, i: nat)
    requires Run(ss) && i < |ss| && ss[i].exec == Asleep
    ensures ss[i].queue != [] ==> PushedUnnotified(ss[i])
    ensures ss[i].destructor != UnlockEnd && ss[i].destructor != Join && ss[i].destructor != Destroyed
  {
    RunInv(ss, i);
  }

  /** Requests are completed in the order in which they were accepted, none twice and
      none lost: what is accepted and not completed is pending. */
  lemma FirstInFirstOut(ss: seq<State>, i: nat)
    requires Run(ss) && i < |ss|
    ensures ss[i].accepted == ss[i].completed + Pending(ss[i])
    ensures ss[i].completed <= ss[i].accepted
    ensures ss[i].exec == Complete || ss[i].exec == Take ==> ss[i].queue != []
  {
    RunInv(ss, i);
  }

  /** Acceptance. A producer is turned away only if the stop flag is set, and what was
      accepted is exactly the requests of the producers that got past the queue. */
  lemma AcceptedUnlessStopped(ss: seq<State>, i: nat)
    requires Run(ss) && i < |ss|
    ensures forall k :: 0 <= k < |ss[i].producers| && ss[i].producers[k].pc == Rejected ==> ss[i].stop
    ensures forall request :: multiset(ss[i].accepted)[request] == Submitted(ss[i].producers, request)
  {
    RunInv(ss, i);
  }

  /** A producer that begins after the stop flag was set is turned away. */
  ghost predicate TurnedAway(s: State, k: nat) {
    s.stop && k < |s.producers| && (s.producers[k].pc == Begin || s.producers[k].pc == Rejected)
  }

  lemma TurnedAwayNext(s: State, k: nat, s': State)
    requires TurnedAway(s, k) && Next(s, s')
    ensures TurnedAway(s', k)
  {
    if !(ExecStep(s, s') || DestructorStep(s, s') || SetStop(s, s') || SpuriousWakeUp(s, s')) {
      var i: nat :| i < |s.producers| && ProducerStep(s, i, s');
      ProducerMove(s, i, s');
    }
  }

  lemma {:induction false} RefusedAfterStop(ss: seq<State>, i: nat, j: nat, k: nat)
    requires Run(ss) && i <= j < |ss| && TurnedAway(ss[i], k)
    ensures TurnedAway(ss[j], k)
    decreases j
  {
    if i < j {
      var m: nat := j - 1;
      RefusedAfterStop(ss, i, m, k);
      RunNext(ss, m, j);
      TurnedAwayNext(ss[m], k, ss[j]);
    }
  }

  lemma RunNext(ss: seq<State>, i: nat, j: nat)
    requires Run(ss) && j < |ss| && j == i + 1
    ensures Next(ss[i], ss[j])
  {
  }

  // ---- every run comes to rest ----

  const ITEM := 20

  function ExecRank(pc: ExecPc, empty: bool, stop: bool): nat {
    if stop then
      match pc
      case Report => 5
      case Query => 4
      case Complete => 3
      case Take => 3
      case Enter => 3
      case Wake => 3
      case Pop => 2
      case Work(_) => 2
      case Test => 2
      case Loop => 1
      case Doze => 1
      case Asleep => 0
      case Ended => 0
    else
      match pc
      case Work(_) => 9
      case Loop => 8
      case Report => 7
      case Query => 6
      case Complete => 5
      case Take => 5
      case Pop => 4
      case Enter => if empty then 5 else 10
      case Wake => if empty then 5 else 10
      case Test => if empty then 4 else 9
      case Doze => 1
      case Asleep => 0
      case Ended => 0
  }

  function ProducerRank(pc: ProducerPc): nat {
    match pc
    case Begin => 50
    case WantLock => 49
    case Push => 48
    case Notify => 13
    case Unlock => 1
    case _ => 0
  }

  function DestructorRank(pc: DestructorPc): nat {
    match pc
    case WantLockToNotify => 16
    case NotifyEnd => 15
    case UnlockEnd => 2
    case Join => 1
    case _ => 0
  }

  function ProducersRank(ps: seq<Producer>): nat {
    if ps == [] then 0 else ProducersRank(ps[..|ps| - 1]) + ProducerRank(ps[|ps| - 1].pc)
  }

  function Rank(s: State): nat {
    ProducersRank(s.producers) + DestructorRank(s.destructor) + ITEM * |s.queue|
    + ExecRank(s.exec, s.queue == [], s.stop)
  }

  lemma {:induction false} ProducersRankPut(ps: seq<Producer>, i: nat, p: Producer)
    requires i < |ps|
    ensures ProducersRank(ps[i := p]) == ProducersRank(ps) + ProducerRank(p.pc) - ProducerRank(ps[i].pc)
  {
    var n := |ps| - 1;
    if i == n {
      assert ps[i := p][..n] == ps[..n];
    } else {
      assert ps[i := p][..n] == ps[..n][i := p];
      ProducersRankPut(ps[..n], i, p);
    }
  }

  lemma ExecDecreases(s: State, s': State)
    requires ControlOk(s) && ExecStep(s, s')
    ensures Rank(s') < Rank(s)
  {
  }

  lemma ProducerDecreases(s: State, i: nat, s': State)
    requires i < |s.producers| && ProducerStep(s, i, s')
    requires s.producers[i].pc == Push ==> s.exec != Test && s.exec != Doze
    ensures Rank(s') < Rank(s)
  {
    ProducersRankPut(s.producers, i, s'.producers[i]);
  }

  lemma DestructorDecreases(s: State, s': State)
    requires DestructorStep(s, s')
    ensures Rank(s') < Rank(s)
  {
  }

  lemma StepDecreases(s: State, s': State)
    requires Inv(s) && Step(s, s')
    ensures Rank(s') < Rank(s)
  {
    if ExecStep(s, s') {
      ExecDecreases(s, s');
    } else if DestructorStep(s, s') {
      DestructorDecreases(s, s');
    } else {
      var i: nat :| i < |s.producers| && ProducerStep(s, i, s');
      ProducerMutex(s, i, s');
      ProducerDecreases(s, i, s');
    }
  }

  /** Nothing can move but a spurious wake-up or a new decision to stop. */
  ghost predicate AtRest(s: State) {
    forall s' :: !Step(s, s')
  }

  ghost predicate ProducersDone(s: State) {
    forall i :: 0 <= i < |s.producers| ==> s.producers[i].pc == Finished || s.producers[i].pc == Rejected
  }

  /** The thread that holds the mutex can always take a step. */
  lemma OwnerMoves(s: State)
    requires Inv(s) && s.mutex != Nobody
    ensures !AtRest(s)
  {
    match s.mutex
    case Executor =>
      var s' := if s.exec == Doze then s.(exec := Asleep, mutex := Nobody)
                else if s.queue != [] || s.stop then s.(exec := Loop, mutex := Nobody) else s.(exec := Doze);
      assert ExecStep(s, s') && Step(s, s');
    case Destructor =>
      var s' := if s.destructor == NotifyEnd then s.(destructor := UnlockEnd, exec := Notified(s.exec))
                else s.(destructor := Join, mutex := Nobody);
      assert DestructorStep(s, s') && Step(s, s');
    case ProducerThread(i) =>
      var p := s.producers[i];
      assert Locks(p.pc);
      var s' := if p.pc == Push then PutProducer(s, i, Notify).(queue := s.queue + [p.request], accepted := s.accepted + [p.request])
                else if p.pc == Notify then PutProducer(s, i, Unlock).(exec := Notified(s.exec))
                else PutProducer(s, i, Finished).(mutex := Nobody);
      assert ProducerStep(s, i, s') && Step(s, s');
  }

  lemma ProducerMoves(s: State, i: nat)
    requires Inv(s) && s.mutex == Nobody && i < |s.producers|
    requires s.producers[i].pc == Begin || s.producers[i].pc == WantLock
    ensures !AtRest(s)
  {
    var s' := if s.producers[i].pc == Begin then PutProducer(s, i, if s.stop then Rejected else WantLock)
              else PutProducer(s, i, Push).(mutex := ProducerThread(i));
    assert ProducerStep(s, i, s') && Step(s, s');
  }

  lemma DestructorMoves(s: State)
    requires Inv(s) && s.mutex == Nobody
    requires s.destructor == WantLockToNotify || (s.destructor == Join && s.exec == Ended)
    ensures !AtRest(s)
  {
    var s' := if s.destructor == Join then s.(destructor := Destroyed)
              else s.(destructor := NotifyEnd, mutex := Destructor);
    assert DestructorStep(s, s') && Step(s, s');
  }

  /** With the mutex free the executor can move unless it sleeps or has ended. */
  lemma ExecMoves(s: State)
    requires Inv(s) && s.mutex == Nobody && s.exec != Asleep && s.exec != Ended
    ensures !AtRest(s)
  {
    var s' :=
      match s.exec
      case Loop => s.(exec := if s.stop then Ended else Report)
      case Report => s.(exec := Query)
      case Query => s.(exec := if s.queue == [] then Enter else if s.early then Take else Complete)
      case Complete => s.(exec := Pop, completed := s.completed + [s.queue[0]])
      case Pop => s.(exec := Loop, queue := s.queue[1..])
      case Take => s.(exec := Work(s.queue[0]), queue := s.queue[1..])
      case Work(request) => s.(exec := Loop, completed := s.completed + [request])
      case _ => s.(exec := Test, mutex := Executor);
    assert ExecStep(s, s') && Step(s, s');
  }

  /** How many producers bring this request. */
  function Brought(ps: seq<Producer>, request: int): nat {
    if ps == [] then 0 else Brought(ps[..|ps| - 1], request) + (if ps[|ps| - 1].request == request then 1 else 0)
  }

  lemma {:induction false} AllSubmitted(ps: seq<Producer>, request: int)
    requires forall i :: 0 <= i < |ps| ==> ps[i].pc == Finished
    ensures Submitted(ps, request) == Brought(ps, request)
  {
    if ps != [] {
      AllSubmitted(ps[..|ps| - 1], request);
    }
  }

  /** At rest every producer has returned. Before the destructor runs the executor
      sleeps, no producer was turned away, and every request of every producer has been
      completed, in the order of acceptance; after it the executor has ended and has been
      joined, so the destructor never hangs. */
  lemma RestIsComplete(s: State)
    requires Inv(s) && AtRest(s)
    ensures ProducersDone(s)
    ensures !s.stop ==> s.exec == Asleep && s.queue == [] && s.completed == s.accepted
    ensures !s.stop ==> forall i :: 0 <= i < |s.producers| ==> s.producers[i].pc == Finished
    ensures !s.stop ==> forall request :: multiset(s.completed)[request] == Brought(s.producers, request)
    ensures s.stop ==> s.exec == Ended && s.destructor == Destroyed
  {
    if s.mutex != Nobody {
      OwnerMoves(s);
    }
    if i :| 0 <= i < |s.producers| && (s.producers[i].pc == Begin || s.producers[i].pc == WantLock) {
      ProducerMoves(s, i);
    }
    assert forall i :: 0 <= i < |s.producers| ==> !Locks(s.producers[i].pc);
    if s.exec != Asleep && s.exec != Ended {
      ExecMoves(s);
    }
    if s.destructor == WantLockToNotify || (s.destructor == Join && s.exec == Ended) {
      DestructorMoves(s);
    }
    if !s.stop {
      forall request ensures multiset(s.completed)[request] == Brought(s.producers, request) {
        AllSubmitted(s.producers, request);
      }
    }
  }

  ghost predicate StepRun(ss: seq<State>) {
    ss != [] && forall i, j :: 0 <= i < j < |ss| && j == i + 1 ==> Step(ss[i], ss[j])
  }

  lemma StepDrains(s: State, s': State)
    requires Inv(s) && Step(s, s')
    ensures Inv(s') && Rank(s') < Rank(s)
  {
    StepDecreases(s, s');
    NextInv(s, s');
  }

  lemma {:induction false} RankFalls(ss: seq<State>, k: nat)
    requires StepRun(ss) && Inv(ss[0]) && k < |ss|
    ensures Inv(ss[k]) && k + Rank(ss[k]) <= Rank(ss[0])
  {
    if k > 0 {
      RankFalls(ss, k - 1);
      assert Step(ss[k - 1], ss[k]);
      StepDrains(ss[k - 1], ss[k]);
    }
  }

  /** From every reachable state, without further spurious wake-ups, the program comes
      to rest within Rank steps. */
  lemma ComesToRest(ss: seq<State>)
    requires StepRun(ss) && Inv(ss[0])
    ensures |ss| - 1 + Rank(ss[|ss| - 1]) <= Rank(ss[0])
    ensures Inv(ss[|ss| - 1])
  {
    RankFalls(ss, |ss| - 1);
  }
}
