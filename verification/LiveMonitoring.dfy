/** The live-monitoring protocol of one websocket: three goroutines and two unbuffered channels.

    - the producer (`CreateLiveMonitoringChannel`) selects between the ticker and `done`;
    - the reader reads the socket, answers load requests and, once the client is gone, sends on `done`;
    - the forwarder receives from `monitor` and writes every batch to the socket.

    Every statement another goroutine can observe is one action. A send and a receive on an
    unbuffered channel are one joint action. Sending on a closed channel and closing a channel
    twice are actions that end in a panic, exactly as in Go; the safety theorem shows they never happen. */
module LiveMonitoring {

  datatype ProducerPc<T> =
    | Selecting | Querying | Sending(batch: T)
    | StoppingTicker | ClosingDone | ClosingMonitor | ProducerReturned

  datatype ReaderPc = Reading | Serving | Responding | SendingDone | ClosingSocket | ReaderReturned

  datatype ForwarderPc<T> = Receiving | Holding(batch: T) | Writing | ForwarderReturned

  datatype State<T> = State(
    producer: ProducerPc<T>,
    reader: ReaderPc,
    forwarder: ForwarderPc<T>,
    tickPending: bool,       // the one-slot buffer of ticker.C
    tickerStopped: bool,
    doneCloses: nat,         // how often close(done) ran
    monitorCloses: nat,      // how often close(monitor) ran
    socketClosed: bool,
    panicked: bool,
    produced: seq<T>,        // results of the successful queries, in order
    handed: seq<T>,          // batches passed to the socket writer, in order
    handedLate: nat          // how many of them met an already closed socket
  )

  function Init<T>(): State<T> {
    State(Selecting, Reading, Receiving, false, false, 0, 0, false, false, [], [], 0)
  }

  datatype Action<T> =
    // the outside world
    | TickerFires
    | ClientAsks(load: bool)
    | ClientLeaves
    // producer
    | TakeTick
    | QueryFails
    | QueryAnswers(result: T)
    | SendOnClosedMonitor
    | ReceiveFromClosedDone
    | StopTicker
    | CloseDone
    | CloseMonitor
    // reader
    | ServeLoad(ok: bool)
    | ResponseWritten
    | SendOnClosedDone
    | CloseSocket
    // forwarder
    | BeginWrite
    | EndWrite
    | SeeMonitorClosed
    // joint
    | Deliver
    | HandOverDone
  {
    /** Actions nobody inside the program decides about. */
    predicate External() { TickerFires? || ClientAsks? || ClientLeaves? }

    /** Actions of the reader or of its client. */
    predicate OfReader() {
      ClientAsks? || ClientLeaves? || ServeLoad? || ResponseWritten? || SendOnClosedDone? || CloseSocket? || HandOverDone?
    }
  }

  predicate Enabled<T>(s: State<T>, a: Action<T>) {
    !s.panicked &&
    match a
    case TickerFires => !s.tickerStopped
    case ClientAsks(_) => s.reader.Reading?
    case ClientLeaves => s.reader.Reading?
    case TakeTick => s.producer.Selecting? && s.tickPending
    case QueryFails => s.producer.Querying?
    case QueryAnswers(_) => s.producer.Querying?
    case SendOnClosedMonitor => s.producer.Sending? && s.monitorCloses > 0
    case ReceiveFromClosedDone => s.producer.Selecting? && s.doneCloses > 0
    case StopTicker => s.producer.StoppingTicker?
    case CloseDone => s.producer.ClosingDone?
    case CloseMonitor => s.producer.ClosingMonitor?
    case ServeLoad(_) => s.reader.Serving?
    case ResponseWritten => s.reader.Responding?
    case SendOnClosedDone => s.reader.SendingDone? && s.doneCloses > 0
    case CloseSocket => s.reader.ClosingSocket?
    case BeginWrite => s.forwarder.Holding?
    case EndWrite => s.forwarder.Writing?
    case SeeMonitorClosed => s.forwarder.Receiving? && s.monitorCloses > 0
    case Deliver => s.producer.Sending? && s.forwarder.Receiving? && s.monitorCloses == 0
    case HandOverDone => s.producer.Selecting? && s.reader.SendingDone? && s.doneCloses == 0
  }

  function Step<T>(s: State<T>, a: Action<T>): State<T>
    requires Enabled(s, a)
  {
    match a
    case TickerFires => s.(tickPending := true)
    case ClientAsks(load) => s.(reader := if load then Serving else Reading)
    case ClientLeaves => s.(reader := SendingDone)
    case TakeTick => s.(producer := Querying, tickPending := false)
    case QueryFails => s.(producer := Selecting)
    case QueryAnswers(b) => s.(producer := Sending(b), produced := s.produced + [b])
    case SendOnClosedMonitor => s.(panicked := true)
    case ReceiveFromClosedDone => s.(producer := StoppingTicker)
    case StopTicker => s.(producer := ClosingDone, tickerStopped := true)
    case CloseDone => s.(producer := ClosingMonitor, doneCloses := s.doneCloses + 1, panicked := s.doneCloses > 0)
    case CloseMonitor =>
      s.(producer := ProducerReturned, monitorCloses := s.monitorCloses + 1, panicked := s.monitorCloses > 0)
    case ServeLoad(ok) => s.(reader := if ok then Responding else Reading)
    case ResponseWritten => s.(reader := Reading)
    case SendOnClosedDone => s.(panicked := true)
    case CloseSocket => s.(reader := ReaderReturned, socketClosed := true)
    case BeginWrite =>
      s.(forwarder := Writing, handed := s.handed + [s.forwarder.batch],
      handedLate := s.handedLate + if s.socketClosed then 1 else 0)
    case EndWrite => s.(forwarder := Receiving)
    case SeeMonitorClosed => s.(forwarder := ForwarderReturned)
    case Deliver => s.(producer := Selecting, forwarder := Holding(s.producer.batch))
    case HandOverDone => s.(producer := StoppingTicker, reader := ClosingSocket)
  }

  /** `acts` can be performed one after the other from `s` and end in `t`. */
  ghost predicate Run<T>(s: State<T>, acts: seq<Action<T>>, t: State<T>)
    decreases |acts|
  {
    if acts == [] then s == t
    else Enabled(s, acts[0]) && Run(Step(s, acts[0]), acts[1..], t)
  }

  predicate AllReturned<T>(s: State<T>) {
    s.producer.ProducerReturned? && s.reader.ReaderReturned? && s.forwarder.ForwarderReturned?
  }

  /** Producer in `select` without a tick, reader in `ReadMessage`, forwarder waiting for a batch. */
  predicate WaitingForOutside<T>(s: State<T>) {
    s.producer.Selecting? && !s.tickPending && s.reader.Reading? && s.forwarder.Receiving?
  }

  /** A batch that left the query but has not reached the socket writer yet. */
  function InFlight<T>(s: State<T>): seq<T> {
    (if s.forwarder.Holding? then [s.forwarder.batch] else []) +
    (if s.producer.Sending? then [s.producer.batch] else [])
  }

  ghost predicate Inv<T>(s: State<T>) {
    && !s.panicked
    && (s.reader.ClosingSocket? || s.reader.ReaderReturned? <==>
        s.producer.StoppingTicker? || s.producer.ClosingDone? || s.producer.ClosingMonitor? || s.producer.ProducerReturned?)
    && s.tickerStopped == (s.producer.ClosingDone? || s.producer.ClosingMonitor? || s.producer.ProducerReturned?)
    && s.doneCloses == (if s.producer.ClosingMonitor? || s.producer.ProducerReturned? then 1 else 0)
    && s.monitorCloses == (if s.producer.ProducerReturned? then 1 else 0)
    && s.socketClosed == s.reader.ReaderReturned?
    && (s.forwarder.ForwarderReturned? ==> s.producer.ProducerReturned?)
    && s.produced == s.handed + InFlight(s)
    && s.handedLate + (if s.socketClosed && s.forwarder.Holding? then 1 else 0) <= 1
    && (!s.socketClosed ==> s.handedLate == 0)
  }

  lemma StepKeepsInv<T>(s: State<T>, a: Action<T>)
    requires Inv(s) && Enabled(s, a)
    ensures Inv(Step(s, a))
  {
    var t := Step(s, a);
    match a {
      case QueryAnswers(b) => assert t.produced == t.handed + InFlight(t);
      case BeginWrite => assert t.produced == t.handed + InFlight(t);
      case Deliver => assert InFlight(t) == InFlight(s);
      case _ =>
    }
  }

  lemma {:induction false} RunKeepsInv<T>(s: State<T>, acts: seq<Action<T>>, t: State<T>)
    requires Inv(s) && Run(s, acts, t)
    ensures Inv(t)
    decreases |acts|
  {
    if acts != [] {
      StepKeepsInv(s, acts[0]);
      RunKeepsInv(Step(s, acts[0]), acts[1..], t);
    }
  }

  // ---------------------------------------------------------------- safety

  /** In every interleaving nothing panics, so nobody sends on a closed channel or closes one twice;
      batches reach the socket writer in order, none lost and none twice; and at most one batch can
      meet a socket that the reader has already closed. */
  lemma EveryRunIsSafe<T>(acts: seq<Action<T>>, t: State<T>)
    requires Run(Init(), acts, t)
    ensures !t.panicked && t.doneCloses <= 1 && t.monitorCloses <= 1
    ensures t.produced == t.handed + InFlight(t) && |InFlight(t)| <= 2
    ensures t.handedLate <= 1
    ensures t.monitorCloses <= t.doneCloses && (t.doneCloses > 0 ==> t.tickerStopped)
    ensures AllReturned(t) ==> t.handed == t.produced && t.doneCloses == t.monitorCloses == 1 && t.tickerStopped
  {
    RunKeepsInv(Init(), acts, t);
  }

  // ------------------------------------------------------------- accounts

  function Count<T>(acts: seq<Action<T>>, which: Action<T> -> bool): nat {
    if acts == [] then 0 else Count(acts[1..], which) + if which(acts[0]) then 1 else 0
  }

  function One(b: bool): nat {
    if b then 1 else 0
  }

  /** What happened between two states, by kinds of actions. */
  ghost predicate Accounts<T>(s: State<T>, acts: seq<Action<T>>, t: State<T>) {
    && Count(acts, (a: Action<T>) => a.TakeTick?) + One(t.tickPending)
       <= Count(acts, (a: Action<T>) => a.TickerFires?) + One(s.tickPending)
    && |t.produced| + Count(acts, (a: Action<T>) => a.QueryFails?) + One(t.producer.Querying?)
       == |s.produced| + Count(acts, (a: Action<T>) => a.TakeTick?) + One(s.producer.Querying?)
    && Count(acts, (a: Action<T>) => a.ServeLoad?) + One(t.reader.Serving?)
       == Count(acts, (a: Action<T>) => a.ClientAsks? && a.load) + One(s.reader.Serving?)
    && Count(acts, (a: Action<T>) => a.ResponseWritten?) + One(t.reader.Responding?)
       == Count(acts, (a: Action<T>) => a.ServeLoad? && a.ok) + One(s.reader.Responding?)
    && |t.handed| == |s.handed| + Count(acts, (a: Action<T>) => a.BeginWrite?)
  }

  lemma {:induction false} RunAccounts<T>(s: State<T>, acts: seq<Action<T>>, t: State<T>)
    requires Run(s, acts, t)
    ensures Accounts(s, acts, t)
    decreases |acts|
  {
    if acts != [] {
      RunAccounts(Step(s, acts[0]), acts[1..], t);
      StepAccounts(s, acts[0]);
    }
  }

  lemma StepAccounts<T>(s: State<T>, a: Action<T>)
    requires Enabled(s, a)
    ensures
      var t := Step(s, a);
      && One(a.TakeTick?) + One(t.tickPending) <= One(a.TickerFires?) + One(s.tickPending)
      && |t.produced| + One(a.QueryFails?) + One(t.producer.Querying?)
         == |s.produced| + One(a.TakeTick?) + One(s.producer.Querying?)
      && One(a.ServeLoad?) + One(t.reader.Serving?) == One(a.ClientAsks? && a.load) + One(s.reader.Serving?)
      && One(a.ResponseWritten?) + One(t.reader.Responding?) == One(a.ServeLoad? && a.ok) + One(s.reader.Responding?)
      && |t.handed| == |s.handed| + One(a.BeginWrite?)
  {
  }

  /** Whole sessions: at most one query for every tick, each of which failed, produced one batch or is
      still running; and each load request is served once and answered at most once. */
  lemma EverythingHasItsCause<T>(acts: seq<Action<T>>, t: State<T>)
    requires Run(Init(), acts, t)
    ensures
      var queries := |t.produced| + Count(acts, (a: Action<T>) => a.QueryFails?) + One(t.producer.Querying?);
      queries <= Count(acts, (a: Action<T>) => a.TickerFires?)
    ensures Count(acts, (a: Action<T>) => a.ServeLoad?) + One(t.reader.Serving?)
         == Count(acts, (a: Action<T>) => a.ClientAsks? && a.load)
    ensures Count(acts, (a: Action<T>) => a.ResponseWritten?) + One(t.reader.Responding?)
         == Count(acts, (a: Action<T>) => a.ServeLoad? && a.ok)
  {
    RunAccounts(Init(), acts, t);
  }

  // ------------------------------------------------------- deadlock freedom

  /** One internal action that `s` allows. */
  function Progress<T>(s: State<T>): Action<T> {
    if s.forwarder.Holding? then BeginWrite
    else if s.forwarder.Writing? then EndWrite
    else match s.producer
      case Querying => QueryFails
      case Sending(_) => Deliver
      case StoppingTicker => StopTicker
      case ClosingDone => CloseDone
      case ClosingMonitor => CloseMonitor
      case ProducerReturned => if s.forwarder.Receiving? then SeeMonitorClosed else CloseSocket
      case Selecting =>
        match s.reader
        case SendingDone => HandOverDone
        case Serving => ServeLoad(false)
        case Responding => ResponseWritten
        case _ => TakeTick
  }

  /** A reachable state in which no goroutine can move is either the end of the session or the one
      idle state in which all three wait for the ticker and the client. There is no deadlock. */
  lemma StuckOnlyWhenDoneOrIdle<T>(acts: seq<Action<T>>, s: State<T>)
    requires Run(Init(), acts, s)
    ensures (forall a: Action<T> | !a.External() :: !Enabled(s, a)) <==> AllReturned(s) || WaitingForOutside(s)
    ensures AllReturned(s) <==> forall a: Action<T> :: !Enabled(s, a)
  {
    RunKeepsInv(Init(), acts, s);
    if AllReturned(s) {
    } else if WaitingForOutside(s) {
      assert Enabled(s, TickerFires);
    } else {
      var a := Progress(s);
      assert !a.External() && Enabled(s, a);
    }
  }

  // ------------------------------------------------------------- shutdown

  /** The client is gone: the reader has left `ReadMessage` for the last time. */
  predicate ShuttingDown<T>(s: State<T>) {
    s.reader.SendingDone? || s.reader.ClosingSocket? || s.reader.ReaderReturned?
  }

  /** How many actions the goroutines still need at most when the ticker stays silent. */
  function Rank<T>(s: State<T>): nat {
    (match s.producer
     case Querying => 8 case Sending(_) => 7 case Selecting => 4
     case StoppingTicker => 3 case ClosingDone => 2 case ClosingMonitor => 1 case ProducerReturned => 0) +
    (match s.reader
     case SendingDone => 2 case ClosingSocket => 1 case _ => 0) +
    (match s.forwarder
     case Holding(_) => 3 case Writing => 2 case Receiving => 1 case ForwarderReturned => 0)
  }

  function Internal<T>(acts: seq<Action<T>>): nat {
    if acts == [] then 0 else Internal(acts[1..]) + if acts[0].External() then 0 else 1
  }

  function TicksTaken<T>(acts: seq<Action<T>>): nat {
    if acts == [] then 0 else TicksTaken(acts[1..]) + if acts[0].TakeTick? then 1 else 0
  }

  lemma StepRank<T>(s: State<T>, a: Action<T>)
    requires Inv(s) && ShuttingDown(s) && Enabled(s, a)
    ensures ShuttingDown(Step(s, a))
    ensures Rank(Step(s, a)) <= Rank(s) + if a.TakeTick? then 4 else if a.External() then 0 else -1
  {
  }

  /** From the moment the client is gone the goroutines perform at most `Rank + 5 * ticks` actions,
      where `ticks` counts the times `select` still preferred the ticker to the waiting `done`. */
  lemma {:induction false} ShutdownIsBounded<T>(s: State<T>, acts: seq<Action<T>>, t: State<T>)
    requires Inv(s) && ShuttingDown(s) && Run(s, acts, t)
    ensures ShuttingDown(t) && Internal(acts) + Rank(t) <= Rank(s) + 5 * TicksTaken(acts)
    decreases |acts|
  {
    if acts != [] {
      StepKeepsInv(s, acts[0]);
      StepRank(s, acts[0]);
      ShutdownIsBounded(Step(s, acts[0]), acts[1..], t);
    }
  }

  /** An action that brings such a session closer to its end. */
  function Finish<T>(s: State<T>): Action<T> {
    if s.producer.Selecting? && s.forwarder.Receiving? then HandOverDone else Progress(s)
  }

  lemma FinishIsEnabled<T>(s: State<T>)
    requires Inv(s) && ShuttingDown(s) && !AllReturned(s)
    ensures Enabled(s, Finish(s)) && !Finish(s).External() && !Finish(s).TakeTick?
  {
  }

  /** Such a session always can end: a run of at most `Rank` actions, none of them external, leads
      from it to the state in which all three goroutines have returned. */
  lemma {:induction false} ShutdownCanFinish<T>(s: State<T>) returns (acts: seq<Action<T>>, t: State<T>)
    requires Inv(s) && ShuttingDown(s)
    ensures Run(s, acts, t) && AllReturned(t) && Internal(acts) == |acts| <= Rank(s)
    decreases Rank(s)
  {
    if AllReturned(s) {
      acts, t := [], s;
    } else {
      var a := Finish(s);
      FinishIsEnabled(s);
      StepKeepsInv(s, a);
      StepRank(s, a);
      var rest, end := ShutdownCanFinish(Step(s, a));
      acts, t := [a] + rest, end;
      assert acts[0] == a && acts[1..] == rest;
    }
  }

  /** Whole sessions: the client leaves in `s`, and in the run that follows the three goroutines have
      all returned exactly when the rank is used up; then every batch produced was handed over. */
  lemma SessionEnds<T>(before: seq<Action<T>>, s: State<T>, after: seq<Action<T>>, t: State<T>)
    requires Run(Init(), before, s) && ShuttingDown(s) && Run(s, after, t)
    ensures AllReturned(t) <==> Rank(t) == 0
    ensures Rank(t) == 0 ==> t.handed == t.produced
    ensures Internal(after) <= 13 + 5 * TicksTaken(after)
  {
    RunKeepsInv(Init(), before, s);
    RunKeepsInv(s, after, t);
    ShutdownIsBounded(s, after, t);
  }

  /** Socket writes are assumed to return. Should one not: after the client is gone the goroutines wait for
      the forwarder's write exactly if the others have returned already, or if the producer waits with
      the next batch - then the reader, which would close the socket, waits for the producer. */
  lemma StuckWriteIff<T(!new)>(s: State<T>)
    requires Inv(s) && ShuttingDown(s)
    ensures (forall a: Action<T> | !a.External() && !a.EndWrite? :: !Enabled(s, a)) <==>
            AllReturned(s)
            || (s.forwarder.Writing? && s.producer.ProducerReturned? && s.reader.ReaderReturned?)
            || (s.forwarder.Writing? && s.producer.Sending? && s.reader.SendingDone?)
  {
    if !AllReturned(s) && !(s.forwarder.Writing? && s.producer.Sending?)
       && !(s.forwarder.Writing? && s.producer.ProducerReturned? && s.reader.ReaderReturned?) {
      var a := if s.forwarder.Writing? then
                 if s.producer.Selecting? then HandOverDone
                 else if s.producer.ProducerReturned? then CloseSocket
                 else Progress(s.(forwarder := Receiving))
               else Finish(s);
      assert Enabled(s, a) && !a.External() && !a.EndWrite?;
    }
  }

  // ------------------------------------------------- two writers, one socket

  /** Reader and forwarder share the socket without a lock: a load response and a batch are being
      written at the same time. */
  predicate TwoWriters<T>(s: State<T>) {
    s.reader.Responding? && s.forwarder.Writing?
  }

  lemma Prepend<T>(s: State<T>, a: Action<T>, acts: seq<Action<T>>, t: State<T>)
    requires Enabled(s, a) && Run(Step(s, a), acts, t)
    ensures Run(s, [a] + acts, t)
  {
    assert ([a] + acts)[1..] == acts;
  }

  /** The next action towards a second writer while the reader is writing a response. */
  function TowardsWriting<T>(s: State<T>, batch: T): Action<T> {
    if s.forwarder.Holding? then BeginWrite
    else match s.producer
      case Sending(_) => Deliver
      case Querying => QueryAnswers(batch)
      case _ => if s.tickPending then TakeTick else TickerFires
  }

  function WritingRank<T>(s: State<T>): nat {
    if s.forwarder.Writing? then 0
    else if s.forwarder.Holding? then 1
    else if s.producer.Sending? then 2
    else if s.producer.Querying? then 3
    else if s.tickPending then 4
    else 5
  }

  lemma TowardsWritingStep<T>(s: State<T>, batch: T)
    requires Inv(s) && s.reader.Responding? && !s.forwarder.Writing?
    ensures
      var a := TowardsWriting(s, batch);
      && Enabled(s, a) && !a.OfReader() && WritingRank(Step(s, a)) < WritingRank(s)
      && Step(s, a).reader.Responding?
  {
  }

  ghost predicate WithoutReader<T>(acts: seq<Action<T>>) {
    forall a | a in acts :: !a.OfReader()
  }

  /** Whenever a load response is being written, the forwarder can start writing a batch before the
      reader takes another step. */
  lemma {:induction false} WritersCanOverlap<T>(s: State<T>, batch: T) returns (acts: seq<Action<T>>, t: State<T>)
    requires Inv(s) && s.reader.Responding?
    ensures Run(s, acts, t) && TwoWriters(t) && WithoutReader(acts)
    decreases WritingRank(s)
  {
    if s.forwarder.Writing? {
      acts, t := [], s;
    } else {
      var a := TowardsWriting(s, batch);
      TowardsWritingStep(s, batch);
      StepKeepsInv(s, a);
      var rest, end := WritersCanOverlap(Step(s, a), batch);
      acts, t := [a] + rest, end;
      Prepend(s, a, rest, end);
    }
  }

  /** Two writers can meet before the reader takes its next step. */
  ghost predicate CanOverlap<T(!new)>(s: State<T>) {
    exists acts, t :: Run(s, acts, t) && TwoWriters(t) && WithoutReader(acts)
  }

  lemma StepLeavesReader<T>(s: State<T>, a: Action<T>)
    requires Enabled(s, a) && !a.OfReader()
    ensures Step(s, a).reader == s.reader
  {
  }

  lemma {:induction false} ReaderUnmoved<T>(s: State<T>, acts: seq<Action<T>>, t: State<T>)
    requires Run(s, acts, t) && WithoutReader(acts)
    ensures t.reader == s.reader
    decreases |acts|
  {
    if acts != [] {
      assert acts[0] in acts && forall a | a in acts[1..] :: a in acts;
      StepLeavesReader(s, acts[0]);
      ReaderUnmoved(Step(s, acts[0]), acts[1..], t);
    }
  }

  lemma CanOverlapIff<T(!new)>(s: State<T>, batch: T)
    requires Inv(s)
    ensures CanOverlap(s) <==> s.reader.Responding?
  {
    if s.reader.Responding? {
      var acts, t := WritersCanOverlap(s, batch);
    } else if CanOverlap(s) {
      var acts, t :| Run(s, acts, t) && TwoWriters(t) && WithoutReader(acts);
      ReaderUnmoved(s, acts, t);
      assert false;
    }
  }

  lemma StepKeepsOneWriter<T>(s: State<T>, a: Action<T>)
    requires Enabled(s, a) && !s.reader.Responding? && a != ServeLoad(true)
    ensures !Step(s, a).reader.Responding?
  {
  }

  /** The overlap needs a load request that was answered: without one the forwarder is the only writer. */
  lemma {:induction false} OneWriterWithoutLoads<T>(s: State<T>, acts: seq<Action<T>>, t: State<T>)
    requires !s.reader.Responding? && Run(s, acts, t)
    requires forall a | a in acts :: a != ServeLoad(true)
    ensures !t.reader.Responding?
    decreases |acts|
  {
    if acts != [] {
      assert acts[0] in acts && forall a | a in acts[1..] :: a in acts;
      StepKeepsOneWriter(s, acts[0]);
      OneWriterWithoutLoads(Step(s, acts[0]), acts[1..], t);
    }
  }

  /** The state after the first `n` actions of a run. */
  lemma {:induction false} StateAfter<T>(s: State<T>, acts: seq<Action<T>>, t: State<T>, n: nat) returns (m: State<T>)
    requires Run(s, acts, t) && n <= |acts|
    ensures Run(s, acts[..n], m) && (n > 0 && acts[n - 1] == ServeLoad(true) ==> m.reader.Responding?)
    decreases |acts|
  {
    if n == 0 {
      m := s;
      assert acts[..0] == [];
    } else {
      m := StateAfter(Step(s, acts[0]), acts[1..], t, n - 1);
      assert acts[..n][1..] == acts[1..][..n - 1];
      if n == 1 {
        assert acts[1..][..0] == [];
      }
    }
  }

  /** At some point of a session two writers can meet. */
  ghost predicate SessionCanOverlap<T(!new)>(acts: seq<Action<T>>) {
    exists n, m :: 0 <= n <= |acts| && Run(Init(), acts[..n], m) && CanOverlap(m)
  }

  /** A session comes to a point from which two writers can meet if and only if it answered a load request. */
  lemma SessionCanOverlapIff<T(!new)>(acts: seq<Action<T>>, t: State<T>, batch: T)
    requires Run(Init(), acts, t)
    ensures SessionCanOverlap(acts) <==> ServeLoad(true) in acts
  {
    if ServeLoad(true) in acts {
      var k :| 0 <= k < |acts| && acts[k] == ServeLoad(true);
      var m := StateAfter(Init(), acts, t, k + 1);
      RunKeepsInv(Init(), acts[..k + 1], m);
      CanOverlapIff(m, batch);
    } else if SessionCanOverlap(acts) {
      var n, m :| 0 <= n <= |acts| && Run(Init(), acts[..n], m) && CanOverlap(m);
      RunKeepsInv(Init(), acts[..n], m);
      CanOverlapIff(m, batch);
      OneWriterWithoutLoads(Init(), acts[..n], m);
      assert false;
    }
  }

  lemma StepStaysShuttingDown<T>(s: State<T>, a: Action<T>)
    requires ShuttingDown(s) && Enabled(s, a)
    ensures ShuttingDown(Step(s, a))
  {
  }

  lemma {:induction false} StaysShuttingDown<T>(s: State<T>, acts: seq<Action<T>>, t: State<T>)
    requires ShuttingDown(s) && Run(s, acts, t)
    ensures ShuttingDown(t)
    decreases |acts|
  {
    if acts != [] {
      StepStaysShuttingDown(s, acts[0]);
      StaysShuttingDown(Step(s, acts[0]), acts[1..], t);
    }
  }

  ghost predicate OverlapReachable<T(!new)>(s: State<T>) {
    exists acts, t :: Run(s, acts, t) && TwoWriters(t)
  }

  /** Two writers can still meet in the future of a state if and only if the client is not gone. */
  lemma OverlapAheadIff<T(!new)>(s: State<T>, batch: T)
    requires Inv(s)
    ensures OverlapReachable(s) <==> !ShuttingDown(s)
  {
    if ShuttingDown(s) {
      forall acts, t | Run(s, acts, t)
        ensures !TwoWriters(t)
      {
        StaysShuttingDown(s, acts, t);
      }
    } else {
      var acts, t := OverlapAhead(s, batch);
      assert Run(s, acts, t) && TwoWriters(t);
    }
  }

  lemma OverlapAhead<T>(s: State<T>, batch: T) returns (acts: seq<Action<T>>, t: State<T>)
    requires Inv(s) && !ShuttingDown(s)
    ensures Run(s, acts, t) && TwoWriters(t)
    decreases if s.reader.Reading? then 2 else if s.reader.Serving? then 1 else 0
  {
    if s.reader.Responding? {
      acts, t := WritersCanOverlap(s, batch);
    } else {
      var a := if s.reader.Reading? then ClientAsks(true) else ServeLoad(true);
      StepKeepsInv(s, a);
      var rest, end := OverlapAhead(Step(s, a), batch);
      acts, t := [a] + rest, end;
      Prepend(s, a, rest, end);
    }
  }
}
