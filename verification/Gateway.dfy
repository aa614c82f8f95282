/**
 The session of a gateway `Connection` (src/gateway.cc): what each callback does to its fields, and all
 interleavings of its event loops with the heartbeat thread.
 */
module Gateway {
  import opened Wrappers

  /** What the hub reports: connection events, and messages by their `op`. */
  datatype Callback =
    | Failed
    | Opened
    | Closed(code: int)
    | Hello
    | Dispatch(s: int, ready: Option<string>)
    | Ack
    | ReconnectRequest
    | InvalidSession(d: bool)
    | HeartbeatRequest
    | OtherMessage

  /**
   What happens, in order: what is received and sent, writes to `acked`, and the start of the timer thread. A
   heartbeat carries a number or null.
   */
  datatype Event =
    | Received(callback: Callback)
    | SentIdentify
    | SentResume(onHello: bool, session: string, seqNo: int)
    | SentHeartbeat(byTimer: bool, number: Option<int>)
    | AckedSet(op: int)
    | AckedCleared
    | TimerStarted

  /** The fields of `Connection` the session depends on, and the events so far. */
  datatype Fields = Fields(
    session: string,
    seqNo: int,
    open: bool,
    acked: bool,
    heartbeatStarted: bool,
    heartbeatOpen: bool,
    trace: seq<Event>)

  const NEW_CONNECTION: Fields := Fields("", -1, false, true, false, true, [])

  function Log(f: Fields, e: Event): Fields {
    f.(trace := f.trace + [e])
  }

  /** Close codes after which the session is given up. */
  predicate Resets(code: int) {
    code == 4003 || code == 4007 || code == 4009
  }

  /** Close codes after which the connection is destroyed. */
  predicate Destroys(code: int) {
    code == 4004 || code == 4010 || code == 4011
  }

  function Identify(f: Fields): Fields {
    Log(f.(seqNo := -1, session := ""), SentIdentify)
  }

  function Resume(f: Fields, onHello: bool): Fields {
    Log(f, SentResume(onHello, f.session, f.seqNo))
  }

  function Heartbeat(f: Fields, byTimer: bool): Fields {
    Log(f, SentHeartbeat(byTimer, if f.seqNo == -1 then None else Some(f.seqNo)))
  }

  // --------------------------------------------------------------------------
  // Callbacks, cut at every read and write of the session
  // --------------------------------------------------------------------------

  /**
   Where an event loop stands: between callbacks, or inside one with the rest of it to do. A resume has
   still to read the session, then the sequence number, then to send both; an identify and a reset have
   two fields to write; a heartbeat has to test the sequence number, and then to read it if it is not -1.
   */
  datatype LoopPc =
    | Idle
    | MustReadSession(onHello: bool)
    | MustReadSeq(onHello: bool, id: string)
    | MustResume(onHello: bool, id: string, seqNo: int)
    | MustClearSeq
    | MustClearSession
    | MustIdentify
    | Greeted
    | AckStored
    | MustStart
    | MustSpawn
    | MustTestNumber
    | MustReadNumber
    | SeqStored(ready: Option<string>)
    | Closing(code: int)
    | SeqReset

  /** The first piece of a callback. A message counts as received when its first field is tested or written. */
  function Begin(f: Fields, c: Callback): (Fields, LoopPc) {
    var g := Log(f, Received(c));
    match c
    case Failed => (g.(open := false), Idle)
    case Opened => (g.(open := true), Idle)
    case Closed(code) => (g.(open := false), Closing(code))
    case Hello => (g, if g.session != "" then MustReadSession(true) else MustClearSeq)
    case Dispatch(s, ready) => (g.(seqNo := s), SeqStored(ready))
    case Ack => (Log(g.(acked := true), AckedSet(11)), Idle)
    case ReconnectRequest => (g, Idle)
    case InvalidSession(d) => (g, if d then MustReadSession(false) else Idle)
    case HeartbeatRequest => (g, MustTestNumber)
    case OtherMessage => (g, Idle)
  }

  /** The next piece of a callback. */
  function Proceed(f: Fields, pc: LoopPc): (Fields, LoopPc) {
    match pc
    case Idle => (f, Idle)
    case MustReadSession(h) => (f, MustReadSeq(h, f.session))
    case MustReadSeq(h, id) => (f, MustResume(h, id, f.seqNo))
    case MustResume(h, id, n) => (Log(f, SentResume(h, id, n)), if h then Greeted else Idle)
    case MustClearSeq => (f.(seqNo := -1), MustClearSession)
    case MustClearSession => (f.(session := ""), MustIdentify)
    case MustIdentify => (Log(f, SentIdentify), Greeted)
    case Greeted => (Log(f.(acked := true), AckedSet(10)), AckStored)
    case AckStored => (f, if f.heartbeatStarted then MustTestNumber else MustStart)
    case MustStart => (f.(heartbeatStarted := true), MustSpawn)
    case MustSpawn => (Log(f, TimerStarted), Idle)
    case MustTestNumber => if f.seqNo == -1 then (Log(f, SentHeartbeat(false, None)), Idle) else (f, MustReadNumber)
    case MustReadNumber => (Log(f, SentHeartbeat(false, Some(f.seqNo))), Idle)
    case SeqStored(ready) => (if ready.Some? then f.(session := ready.value) else f, Idle)
    case Closing(code) =>
      if Destroys(code) then (f.(heartbeatOpen := false), Idle)
      else if Resets(code) then (f.(seqNo := -1), SeqReset)
      else (f, Idle)
    case SeqReset => (f.(session := ""), Idle)
  }

  /** How many pieces may still follow. */
  function Rank(pc: LoopPc): nat {
    match pc
    case Idle => 0
    case MustReadSession(_) => 7
    case MustReadSeq(_, _) => 6
    case MustResume(_, _, _) => 5
    case MustClearSeq => 7
    case MustClearSession => 6
    case MustIdentify => 5
    case Greeted => 4
    case AckStored => 3
    case MustStart => 2
    case MustSpawn => 1
    case MustTestNumber => 2
    case MustReadNumber => 1
    case SeqStored(_) => 1
    case Closing(_) => 2
    case SeqReset => 1
  }

  /** A callback that nothing gets in between. */
  function Finish(f: Fields, pc: LoopPc): Fields
    decreases Rank(pc)
  {
    if pc == Idle then f else Finish(Proceed(f, pc).0, Proceed(f, pc).1)
  }

  lemma FinishOne(f: Fields, pc: LoopPc)
    requires pc != Idle && Proceed(f, pc).1 == Idle
    ensures Finish(f, pc) == Proceed(f, pc).0
  {
    assert Finish(Proceed(f, pc).0, Idle) == Proceed(f, pc).0;
  }

  lemma FinishResume(f: Fields, onHello: bool)
    ensures Finish(f, MustReadSession(onHello)) == Finish(Resume(f, onHello), if onHello then Greeted else Idle)
  {
    var id, n := f.session, f.seqNo;
    assert Finish(f, MustReadSession(onHello)) == Finish(f, MustReadSeq(onHello, id));
    assert Finish(f, MustReadSeq(onHello, id)) == Finish(f, MustResume(onHello, id, n));
  }

  lemma FinishIdentify(f: Fields)
    ensures Finish(f, MustClearSeq) == Finish(Identify(f), Greeted)
  {
    var g := f.(seqNo := -1);
    assert Finish(f, MustClearSeq) == Finish(g, MustClearSession);
    assert Finish(g, MustClearSession) == Finish(g.(session := ""), MustIdentify);
  }

  lemma FinishHeartbeat(f: Fields)
    ensures Finish(f, MustTestNumber) == Heartbeat(f, false)
  {
    if f.seqNo == -1 {
      FinishOne(f, MustTestNumber);
    } else {
      assert Finish(f, MustTestNumber) == Finish(f, MustReadNumber);
      FinishOne(f, MustReadNumber);
    }
  }

  lemma FinishReset(f: Fields, code: int)
    requires Resets(code)
    ensures Finish(f, Closing(code)) == f.(seqNo := -1, session := "")
  {
    assert Finish(f, Closing(code)) == Finish(f.(seqNo := -1), SeqReset);
    FinishOne(f.(seqNo := -1), SeqReset);
  }

  function Handle(f: Fields, c: Callback): Fields {
    Finish(Begin(f, c).0, Begin(f, c).1)
  }

  // --------------------------------------------------------------------------
  // All threads together
  // --------------------------------------------------------------------------

  /** The main thread runs the first event loop; the timer thread runs a second one when it reconnects. */
  datatype Loop = MainLoop | TimerLoop

  /**
   The timer thread: the loop test, `sleep_for`, the tests of `acked` and `open`, and what follows them. Its
   heartbeat tests the sequence number and reads it, like the others.
   */
  datatype TimerPc =
    Off | Checking | Sleeping | TestingAck | TestingOpen | Clearing | Beating | ReadingNumber | Reconnecting | Left

  datatype System = System(f: Fields, main: LoopPc, second: LoopPc, timer: TimerPc, terminated: bool)

  datatype Action = Start(loop: Loop, callback: Callback) | Continue(loop: Loop) | Tick

  const INITIAL: System := System(NEW_CONNECTION, Idle, Idle, Off, false)

  function PcOf(s: System, l: Loop): LoopPc {
    if l == MainLoop then s.main else s.second
  }

  function Other(l: Loop): Loop {
    if l == MainLoop then TimerLoop else MainLoop
  }

  predicate Enabled(s: System, a: Action) {
    && !s.terminated
    && match a
       case Start(l, _) => PcOf(s, l) == Idle && (l == TimerLoop ==> s.timer == Reconnecting)
       case Continue(l) => PcOf(s, l) != Idle
       case Tick => s.timer != Off && s.timer != Left && (s.timer == Reconnecting ==> s.second == Idle)
  }

  function MoveLoop(s: System, l: Loop, f: Fields, pc: LoopPc): System {
    if l == MainLoop then s.(f := f, main := pc) else s.(f := f, second := pc)
  }

  /** One step of the timer thread; when its `reconnect` returns the process ends. */
  function DoTick(s: System): System {
    match s.timer
    case Off => s
    case Checking => s.(timer := if s.f.heartbeatOpen then Sleeping else Left)
    case Sleeping => s.(timer := TestingAck)
    case TestingAck => s.(timer := if s.f.acked then TestingOpen else Reconnecting)
    case TestingOpen => s.(timer := if s.f.open then Clearing else Checking)
    case Clearing => s.(f := Log(s.f.(acked := false), AckedCleared), timer := Beating)
    case Beating =>
      if s.f.seqNo == -1 then s.(f := Log(s.f, SentHeartbeat(true, None)), timer := Checking)
      else s.(timer := ReadingNumber)
    case ReadingNumber => s.(f := Log(s.f, SentHeartbeat(true, Some(s.f.seqNo))), timer := Checking)
    case Reconnecting => s.(terminated := true)
    case Left => s
  }

  function Do(s: System, a: Action): System {
    match a
    case Start(l, c) => var (g, pc) := Begin(s.f, c); MoveLoop(s, l, g, pc)
    case Continue(l) =>
      var (g, pc) := Proceed(s.f, PcOf(s, l));
      var t := MoveLoop(s, l, g, pc);
      if PcOf(s, l) == MustSpawn then t.(timer := Checking) else t
    case Tick => DoTick(s)
  }

  /** The actions can be taken one after the other. */
  predicate IsRun(s: System, actions: seq<Action>)
    decreases |actions|
  {
    actions == [] || (Enabled(s, actions[0]) && IsRun(Do(s, actions[0]), actions[1..]))
  }

  function After(s: System, actions: seq<Action>): System
    decreases |actions|
  {
    if actions == [] then s else After(Do(s, actions[0]), actions[1..])
  }
}
