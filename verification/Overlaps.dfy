/**
 The other half of resume correctness: every clash that a discipline lets through makes some run resume
 wrongly, so the clashes of `Sessions` are exactly the overlaps to rule out.
 */
module Overlaps {
  import opened Gateway
  import opened Sequences
  import opened Sessions
  import opened Wrappers
  import opened WrongRuns

  lemma {:induction false} RunSnoc(s: System, actions: seq<Action>, a: Action, may: Discipline)
    requires IsRunUnder(s, actions, may) && Permitted(After(s, actions), a, may)
    ensures IsRunUnder(s, actions + [a], may) && After(s, actions + [a]) == Do(After(s, actions), a)
    decreases |actions|
  {
    if actions == [] {
      assert [] + [a] == [a];
    } else {
      RunSnoc(Do(s, actions[0]), actions[1..], a, may);
      assert (actions + [a])[1..] == actions[1..] + [a];
    }
  }

  /** Some run under the discipline leads to `s`. */
  ghost predicate Reachable(s: System, may: Discipline) {
    exists actions :: Reaches(actions, s, may)
  }

  ghost predicate Reaches(actions: seq<Action>, s: System, may: Discipline) {
    IsRunUnder(INITIAL, actions, may) && After(INITIAL, actions) == s
  }

  /** Callbacks may run one at a time. */
  ghost predicate AllowsSerial(may: Discipline) {
    forall c :: may(Idle, c)
  }

  lemma ReachNext(s: System, a: Action, t: System, may: Discipline)
    requires Reachable(s, may) && Permitted(s, a, may) && Do(s, a) == t
    ensures Reachable(t, may)
  {
    var actions :| Reaches(actions, s, may);
    RunSnoc(INITIAL, actions, a, may);
    assert Reaches(actions + [a], t, may);
  }

  // --------------------------------------------------------------------------
  // Getting the second event loop going
  // --------------------------------------------------------------------------

  function Quiet(f: Fields, timer: TimerPc): System {
    System(f, Idle, Idle, timer, false)
  }

  /** The main loop alone takes the next piece of its callback. */
  lemma ReachPiece(f: Fields, pc: LoopPc, timer: TimerPc, may: Discipline)
    requires Reachable(Quiet(f, timer).(main := pc), may) && pc != Idle && pc != MustSpawn
    ensures Reachable(Quiet(Proceed(f, pc).0, timer).(main := Proceed(f, pc).1), may)
  {
    ReachNext(Quiet(f, timer).(main := pc), Continue(MainLoop),
              Quiet(Proceed(f, pc).0, timer).(main := Proceed(f, pc).1), may);
  }

  /** The identify of the first HELLO. */
  lemma ReachGreeted(f: Fields, may: Discipline) returns (g: Fields)
    requires AllowsSerial(may) && Reachable(Quiet(f, Off), may) && f.session == "" && !f.heartbeatStarted
    ensures Reachable(Quiet(g, Off).(main := Greeted), may)
    ensures g.open == f.open && g.heartbeatOpen == f.heartbeatOpen && !g.heartbeatStarted && g.seqNo == -1
  {
    var f0 := Log(f, Received(Hello));
    ReachNext(Quiet(f, Off), Start(MainLoop, Hello), Quiet(f0, Off).(main := MustClearSeq), may);
    ReachPiece(f0, MustClearSeq, Off, may);
    var f1 := f0.(seqNo := -1);
    ReachPiece(f1, MustClearSession, Off, may);
    var f2 := f1.(session := "");
    ReachPiece(f2, MustIdentify, Off, may);
    g := Log(f2, SentIdentify);
  }

  /** The first HELLO identifies and starts the timer thread. */
  lemma ReachTimer(f: Fields, may: Discipline) returns (g: Fields)
    requires AllowsSerial(may) && Reachable(Quiet(f, Off), may) && f.session == "" && !f.heartbeatStarted
    ensures Reachable(Quiet(g, Checking), may)
    ensures g.acked && g.open == f.open && g.heartbeatOpen == f.heartbeatOpen && g.heartbeatStarted && g.seqNo == -1
  {
    var f1 := ReachGreeted(f, may);
    ReachPiece(f1, Greeted, Off, may);
    var f2 := Log(f1.(acked := true), AckedSet(10));
    ReachPiece(f2, AckStored, Off, may);
    ReachPiece(f2, MustStart, Off, may);
    var f3 := f2.(heartbeatStarted := true);
    g := Log(f3, TimerStarted);
    ReachNext(Quiet(f3, Off).(main := MustSpawn), Continue(MainLoop), Quiet(g, Checking), may);
  }

  /** A heartbeat that is not acknowledged makes the timer thread reconnect. */
  lemma ReachSecondLoop(f: Fields, may: Discipline) returns (g: Fields)
    requires Reachable(Quiet(f, Checking), may) && f.heartbeatOpen && f.acked && f.open && f.seqNo == -1
    ensures Reachable(Quiet(g, Reconnecting), may) && g.heartbeatStarted == f.heartbeatStarted
  {
    ReachNext(Quiet(f, Checking), Tick, Quiet(f, Sleeping), may);
    ReachNext(Quiet(f, Sleeping), Tick, Quiet(f, TestingAck), may);
    ReachNext(Quiet(f, TestingAck), Tick, Quiet(f, TestingOpen), may);
    ReachNext(Quiet(f, TestingOpen), Tick, Quiet(f, Clearing), may);
    var f1 := Log(f.(acked := false), AckedCleared);
    ReachNext(Quiet(f, Clearing), Tick, Quiet(f1, Beating), may);
    g := Heartbeat(f1, true);
    ReachNext(Quiet(f1, Beating), Tick, Quiet(g, Checking), may);
    ReachNext(Quiet(g, Checking), Tick, Quiet(g, Sleeping), may);
    ReachNext(Quiet(g, Sleeping), Tick, Quiet(g, TestingAck), may);
    ReachNext(Quiet(g, TestingAck), Tick, Quiet(g, Reconnecting), may);
  }

  // --------------------------------------------------------------------------
  // Both event loops at once, the timer thread being inside its `reconnect`
  // --------------------------------------------------------------------------

  /** Loop `l` at `pc`, the other one at `other`. */
  function Both(f: Fields, l: Loop, pc: LoopPc, other: LoopPc): System {
    if l == MainLoop then System(f, pc, other, Reconnecting, false) else System(f, other, pc, Reconnecting, false)
  }

  /** Some run leads there with the session standing as `v` says. */
  ghost predicate Reached(v: Standing, l: Loop, pc: LoopPc, other: LoopPc, may: Discipline) {
    exists f :: ReachedWith(f, v, l, pc, other, may)
  }

  ghost predicate ReachedWith(f: Fields, v: Standing, l: Loop, pc: LoopPc, other: LoopPc, may: Discipline) {
    f.heartbeatStarted && StandingOf(f) == v && Reachable(Both(f, l, pc, other), may)
  }

  lemma TwoLoopsAreReachable(may: Discipline) returns (v: Standing)
    requires AllowsSerial(may)
    ensures Reached(v, MainLoop, Idle, Idle, may)
  {
    assert Reaches([], INITIAL, may);
    var f1 := Log(NEW_CONNECTION, Received(Opened)).(open := true);
    ReachNext(INITIAL, Start(MainLoop, Opened), Quiet(f1, Off), may);
    var f2 := ReachTimer(f1, may);
    var f := ReachSecondLoop(f2, may);
    v := StandingOf(f);
    assert ReachedWith(f, v, MainLoop, Idle, Idle, may);
  }

  /** Seen from the other loop. */
  lemma Swapped(v: Standing, l: Loop, pc: LoopPc, other: LoopPc, may: Discipline)
    requires Reached(v, l, pc, other, may)
    ensures Reached(v, Other(l), other, pc, may)
  {
    var f :| ReachedWith(f, v, l, pc, other, may);
    assert ReachedWith(f, v, Other(l), other, pc, may);
  }

  /** Where a callback stands after a piece, once the timer thread has been started. */
  function StartPc(v: Standing, c: Callback): LoopPc {
    Begin(Fields(v.id, v.seqNo, true, true, true, true, []), c).1
  }

  function NextPc(v: Standing, pc: LoopPc): LoopPc {
    Proceed(Fields(v.id, v.seqNo, true, true, true, true, []), pc).1
  }

  lemma StartCallback(v: Standing, l: Loop, other: LoopPc, c: Callback, may: Discipline)
    requires Reached(v, l, Idle, other, may) && may(other, c)
    ensures Reached(AfterStart(v, c), l, StartPc(v, c), other, may)
  {
    var f :| ReachedWith(f, v, l, Idle, other, may);
    var g, pc := Begin(f, c).0, StartPc(v, c);
    ReachNext(Both(f, l, Idle, other), Start(l, c), Both(g, l, pc, other), may);
    StartStanding(f, c);
    assert ReachedWith(g, AfterStart(v, c), l, pc, other, may);
  }

  lemma NextPcIs(f: Fields, pc: LoopPc)
    requires f.heartbeatStarted
    ensures Proceed(f, pc).1 == NextPc(StandingOf(f), pc) && Proceed(f, pc).0.heartbeatStarted
  {
  }

  lemma ContinueMoves(s: System, l: Loop, g: Fields, next: LoopPc)
    requires PcOf(s, l) != MustSpawn && Proceed(s.f, PcOf(s, l)) == (g, next)
    ensures Do(s, Continue(l)) == MoveLoop(s, l, g, next)
  {
  }

  lemma ReachContinue(f: Fields, l: Loop, pc: LoopPc, other: LoopPc, g: Fields, next: LoopPc, may: Discipline)
    requires Reachable(Both(f, l, pc, other), may) && pc != Idle && pc != MustSpawn && Proceed(f, pc) == (g, next)
    ensures Reachable(Both(g, l, next, other), may)
  {
    ContinueMoves(Both(f, l, pc, other), l, g, next);
    ReachNext(Both(f, l, pc, other), Continue(l), Both(g, l, next, other), may);
  }

  lemma TakePiece(v: Standing, l: Loop, pc: LoopPc, other: LoopPc, may: Discipline)
    requires Reached(v, l, pc, other, may) && pc != Idle && pc != MustSpawn
    ensures Reached(AfterPiece(v, pc), l, NextPc(v, pc), other, may)
  {
    var f :| ReachedWith(f, v, l, pc, other, may);
    var (g, next) := Proceed(f, pc);
    NextPcIs(f, pc);
    PieceStanding(f, pc);
    ReachContinue(f, l, pc, other, g, next, may);
    assert ReachedWith(g, AfterPiece(v, pc), l, next, other, may);
  }

  // --------------------------------------------------------------------------
  // Wrong resumes
  // --------------------------------------------------------------------------

  /** The last event is a RESUME sent on HELLO for a session that cannot be resumed. */
  ghost predicate ResumesWrongly(t: seq<Event>) {
    && t != [] && Last(t).SentResume? && Last(t).onHello
    && !Resumable(t, |t| - 1, Last(t).session, Last(t).seqNo)
  }

  ghost predicate WrongRunExists(may: Discipline) {
    exists actions :: IsWrongRun(actions, may)
  }

  ghost predicate IsWrongRun(actions: seq<Action>, may: Discipline) {
    IsRunUnder(INITIAL, actions, may) && ResumesWrongly(After(INITIAL, actions).f.trace)
  }

  lemma WrongSend(t: seq<Event>, id: string, n: int)
    requires Live(t) != Some(Session(id, n))
    ensures ResumesWrongly(t + [SentResume(true, id, n)])
  {
    var u := t + [SentResume(true, id, n)];
    Snoc(t, SentResume(true, id, n));
    LiveIffResumable(t, id, n);
    if Resumable(u, |t|, id, n) {
      var r, d :| ResumableFrom(u, |t|, id, n, r, d);
      ResumableFromPrefix(u, |t|, id, n, r, d);
    }
  }

  /** What a RESUME still to be sent will carry if nothing gets in between. */
  function WillSend(v: Standing, debt: Debt): Session
    requires debt.ReadBoth? || debt.ReadSeq? || debt.Send?
  {
    match debt
    case ReadBoth => Session(v.id, v.seqNo)
    case ReadSeq(id) => Session(id, v.seqNo)
    case Send(id, n) => Session(id, n)
  }

  lemma SendNow(v: Standing, l: Loop, id: string, n: int, other: LoopPc, may: Discipline)
    requires Reached(v, l, MustResume(true, id, n), other, may) && v.live != Some(Session(id, n))
    ensures WrongRunExists(may)
  {
    var f :| ReachedWith(f, v, l, MustResume(true, id, n), other, may);
    var g := Log(f, SentResume(true, id, n));
    ReachNext(Both(f, l, MustResume(true, id, n), other), Continue(l), Both(g, l, Greeted, other), may);
    WrongSend(f.trace, id, n);
    var actions :| Reaches(actions, Both(g, l, Greeted, other), may);
    assert IsWrongRun(actions, may);
  }

  lemma SendWrongly(v: Standing, l: Loop, pc: LoopPc, other: LoopPc, may: Discipline)
    requires Reached(v, l, pc, other, may) && (Owes(pc).ReadBoth? || Owes(pc).ReadSeq? || Owes(pc).Send?)
    requires v.live != Some(WillSend(v, Owes(pc)))
    ensures WrongRunExists(may)
    decreases Rank(pc)
  {
    if pc.MustResume? {
      SendNow(v, l, pc.id, pc.seqNo, other, may);
    } else {
      TakePiece(v, l, pc, other, may);
      SendWrongly(v, l, NextPc(v, pc), other, may);
    }
  }

  /** A HELLO at a moment when the session to be resumed is not the live one. */
  lemma HelloSendsWrongly(v: Standing, l: Loop, other: LoopPc, may: Discipline)
    requires Reached(v, l, Idle, other, may) && may(other, Hello) && v.id != "" && !Agrees(v)
    ensures WrongRunExists(may)
  {
    StartCallback(v, l, other, Hello, may);
    SendWrongly(v, l, MustReadSession(true), other, may);
  }

  // --------------------------------------------------------------------------
  // Bringing the main loop to each place where it owes something
  // --------------------------------------------------------------------------

  /** A READY handled alone. */
  lemma ReachReady(v: Standing, s: int, id: string, may: Discipline)
    requires AllowsSerial(may) && Reached(v, MainLoop, Idle, Idle, may)
    ensures Reached(Standing(id, s, Some(Session(id, s))), MainLoop, Idle, Idle, may)
  {
    var c := Dispatch(s, Some(id));
    StartCallback(v, MainLoop, Idle, c, may);
    TakePiece(AfterStart(v, c), MainLoop, SeqStored(Some(id)), Idle, may);
  }

  /** A close that resets, up to its second write. */
  lemma ReachSeqReset(v: Standing, may: Discipline)
    requires AllowsSerial(may) && Reached(v, MainLoop, Idle, Idle, may)
    ensures Reached(Standing(v.id, -1, None), MainLoop, SeqReset, Idle, may)
  {
    StartCallback(v, MainLoop, Idle, Closed(4009), may);
    TakePiece(v.(live := None), MainLoop, Closing(4009), Idle, may);
  }

  lemma ReachNoSession(v: Standing, may: Discipline)
    requires AllowsSerial(may) && Reached(v, MainLoop, Idle, Idle, may)
    ensures Reached(Standing("", -1, None), MainLoop, Idle, Idle, may)
  {
    ReachSeqReset(v, may);
    TakePiece(Standing(v.id, -1, None), MainLoop, SeqReset, Idle, may);
  }

  /** Inside an identify. */
  lemma ReachIdentifying(v: Standing, pc: LoopPc, may: Discipline)
    requires AllowsSerial(may) && Reached(v, MainLoop, Idle, Idle, may) && Owes(pc).Identifying?
    ensures Reached(Standing("", -1, None), MainLoop, pc, Idle, may)
    decreases Rank(MustClearSeq) - Rank(pc)
  {
    var w := Standing("", -1, None);
    if pc == MustClearSeq {
      ReachNoSession(v, may);
      StartCallback(w, MainLoop, Idle, Hello, may);
    } else {
      var before := if pc == MustClearSession then MustClearSeq else MustClearSession;
      ReachIdentifying(v, before, may);
      TakePiece(w, MainLoop, before, Idle, may);
    }
  }

  /** About to send a RESUME for the session `id` at `n`, with as much read as `pc` says. */
  lemma ReachResuming(v: Standing, pc: LoopPc, id: string, n: int, may: Discipline)
    requires AllowsSerial(may) && Reached(v, MainLoop, Idle, Idle, may) && id != ""
    requires pc == MustReadSession(true) || pc == MustReadSeq(true, id) || pc == MustResume(true, id, n)
    ensures Reached(Standing(id, n, Some(Session(id, n))), MainLoop, pc, Idle, may)
  {
    ReachReady(v, n, id, may);
    var w := Standing(id, n, Some(Session(id, n)));
    StartCallback(w, MainLoop, Idle, Hello, may);
    if !pc.MustReadSession? {
      TakePiece(w, MainLoop, MustReadSession(true), Idle, may);
      if !pc.MustReadSeq? {
        TakePiece(w, MainLoop, MustReadSeq(true, id), Idle, may);
      }
    }
  }

  // --------------------------------------------------------------------------
  // One bad run for each kind of clash
  // --------------------------------------------------------------------------

  /** A HELLO in the second loop while the main one has another id to store, or both writes of a reset to do. */
  lemma HelloBeforeWrites(v: Standing, pc: LoopPc, may: Discipline)
    requires AllowsSerial(may) && may(pc, Hello) && Reached(v, MainLoop, Idle, Idle, may) && v.id != ""
    requires (Owes(pc).Store? && pc.ready != Some(v.id)) || Owes(pc).ResetBoth?
    ensures WrongRunExists(may)
  {
    var c := if pc.SeqStored? then Dispatch(v.seqNo, pc.ready) else Closed(pc.code);
    StartCallback(v, MainLoop, Idle, c, may);
    Swapped(AfterStart(v, c), MainLoop, pc, Idle, may);
    HelloSendsWrongly(AfterStart(v, c), TimerLoop, pc, may);
  }

  /** A HELLO in the second loop between the two writes of a reset. */
  lemma HelloInsideReset(v: Standing, may: Discipline)
    requires AllowsSerial(may) && may(SeqReset, Hello) && Reached(v, MainLoop, Idle, Idle, may) && v.id != ""
    ensures WrongRunExists(may)
  {
    ReachSeqReset(v, may);
    Swapped(Standing(v.id, -1, None), MainLoop, SeqReset, Idle, may);
    HelloSendsWrongly(Standing(v.id, -1, None), TimerLoop, SeqReset, may);
  }

  /** A HELLO in the second loop while the main one has an id to store or a reset to do. */
  lemma HelloTooEarly(pc: LoopPc, may: Discipline)
    requires AllowsSerial(may) && may(pc, Hello) && Clash(pc, Hello)
    ensures WrongRunExists(may)
  {
    var v := TwoLoopsAreReachable(may);
    var id := if Owes(pc) == Store("a") then "b" else "a";
    ReachReady(v, 0, id, may);
    v := Standing(id, 0, Some(Session(id, 0)));
    if pc == SeqReset {
      HelloInsideReset(v, may);
    } else {
      HelloBeforeWrites(v, pc, may);
    }
  }

  /** The main loop and then the second one have begun callbacks. */
  lemma BothBegun(v: Standing, pc: LoopPc, first: Callback, c: Callback, may: Discipline)
    requires AllowsSerial(may) && may(pc, c) && Reached(v, MainLoop, Idle, Idle, may) && StartPc(v, first) == pc
    ensures var w := AfterStart(v, first);
            Reached(AfterStart(w, c), TimerLoop, StartPc(w, c), pc, may)
  {
    StartCallback(v, MainLoop, Idle, first, may);
    Swapped(AfterStart(v, first), MainLoop, pc, Idle, may);
    StartCallback(AfterStart(v, first), TimerLoop, pc, c, may);
  }

  /** The second loop ends its callback: a dispatch or a close that resets. */
  lemma SecondEnds(v: Standing, second: LoopPc, pc: LoopPc, may: Discipline) returns (w: Standing)
    requires Reached(v, TimerLoop, second, pc, may)
    requires (second.SeqStored? && second.ready.Some?) || (second.Closing? && Resets(second.code))
    ensures Reached(w, MainLoop, pc, Idle, may) && w.live == v.live
    ensures w.seqNo == if second.SeqStored? then v.seqNo else -1
    ensures w.id == if second.SeqStored? then second.ready.value else ""
  {
    TakePiece(v, TimerLoop, second, pc, may);
    w := AfterPiece(v, second);
    if second.Closing? {
      TakePiece(w, TimerLoop, SeqReset, pc, may);
      w := w.(id := "");
    }
    Swapped(w, TimerLoop, Idle, pc, may);
  }

  /** A READY or a reset in the second loop while the main one has an older id to store. */
  lemma OlderIdStoredLast(pc: LoopPc, c: Callback, may: Discipline)
    requires AllowsSerial(may) && may(pc, c) && Clash(pc, c) && c != Hello && Owes(pc).Store?
    ensures WrongRunExists(may)
  {
    var v := TwoLoopsAreReachable(may);
    var first := Dispatch(0, pc.ready);
    BothBegun(v, pc, first, c, may);
    var w := SecondEnds(AfterStart(AfterStart(v, first), c), StartPc(AfterStart(v, first), c), pc, may);
    TakePiece(w, MainLoop, pc, Idle, may);
    HelloSendsWrongly(w.(id := pc.ready.value), MainLoop, Idle, may);
  }

  /** The main loop does both writes of a reset. */
  lemma ResetEnds(v: Standing, pc: LoopPc, second: LoopPc, may: Discipline)
    requires Reached(v, TimerLoop, second, pc, may) && Owes(pc).ResetBoth?
    ensures Reached(Standing("", -1, v.live), TimerLoop, second, Idle, may)
  {
    Swapped(v, TimerLoop, second, pc, may);
    TakePiece(v, MainLoop, pc, second, may);
    var w := v.(seqNo := -1);
    TakePiece(w, MainLoop, SeqReset, second, may);
    Swapped(w.(id := ""), MainLoop, Idle, second, may);
  }

  /** A READY in the second loop whose sequence number the main one erases. */
  lemma SeqNoErased(pc: LoopPc, c: Callback, may: Discipline)
    requires AllowsSerial(may) && may(pc, c) && Clash(pc, c) && c != Hello && Owes(pc).ResetBoth?
    ensures WrongRunExists(may)
  {
    var v := TwoLoopsAreReachable(may);
    BothBegun(v, pc, Closed(pc.code), c, may);
    var live := Some(Session(c.ready.value, c.s));
    var second := SeqStored(c.ready);
    ResetEnds(Standing(v.id, c.s, live), pc, second, may);
    var w := SecondEnds(Standing("", -1, live), second, Idle, may);
    HelloSendsWrongly(w, MainLoop, Idle, may);
  }

  /** The heartbeat behind a HELLO. */
  lemma HeartbeatDone(v: Standing, other: LoopPc, may: Discipline)
    requires Reached(v, MainLoop, MustTestNumber, other, may)
    ensures Reached(v, MainLoop, Idle, other, may)
  {
    TakePiece(v, MainLoop, MustTestNumber, other, may);
    if v.seqNo != -1 {
      TakePiece(v, MainLoop, MustReadNumber, other, may);
    }
  }

  /** The rest of a HELLO after its identify or resume. */
  lemma HelloEnds(v: Standing, other: LoopPc, may: Discipline)
    requires Reached(v, MainLoop, Greeted, other, may)
    ensures Reached(v, MainLoop, Idle, other, may)
  {
    TakePiece(v, MainLoop, Greeted, other, may);
    TakePiece(v, MainLoop, AckStored, other, may);
    HeartbeatDone(v, other, may);
  }

  /** From inside an identify to the end of the callback: no session is live then. */
  lemma IdentifyEnds(v: Standing, pc: LoopPc, other: LoopPc, may: Discipline) returns (w: Standing)
    requires Reached(v, MainLoop, pc, other, may) && Owes(pc).Identifying?
    ensures Reached(w, MainLoop, Idle, other, may) && w.live == None
    decreases Rank(pc)
  {
    TakePiece(v, MainLoop, pc, other, may);
    if pc != MustIdentify {
      w := IdentifyEnds(AfterPiece(v, pc), NextPc(v, pc), other, may);
    } else {
      w := v.(live := None);
      HelloEnds(w, other, may);
    }
  }

  /** A READY in the second loop whose session the main one ends with an identify. */
  lemma EndedByIdentify(pc: LoopPc, c: Callback, may: Discipline)
    requires AllowsSerial(may) && may(pc, c) && Clash(pc, c) && Owes(pc).Identifying?
    ensures WrongRunExists(may)
  {
    var v := TwoLoopsAreReachable(may);
    ReachIdentifying(v, pc, may);
    v := Standing("", -1, None);
    Swapped(v, MainLoop, pc, Idle, may);
    StartCallback(v, TimerLoop, pc, c, may);
    var second := SeqStored(c.ready);
    Swapped(AfterStart(v, c), TimerLoop, second, pc, may);
    var w := IdentifyEnds(AfterStart(v, c), pc, second, may);
    Swapped(w, MainLoop, Idle, second, may);
    w := SecondEnds(w, second, Idle, may);
    HelloSendsWrongly(w, MainLoop, Idle, may);
  }

  /** A callback in the second loop that changes the session while the main one is on its way to resume it. */
  lemma ChangedOnTheWay(pc: LoopPc, c: Callback, may: Discipline)
    requires AllowsSerial(may) && may(pc, c) && Clash(pc, c)
    requires Owes(pc).ReadBoth? || Owes(pc).ReadSeq? || Owes(pc).Send?
    ensures WrongRunExists(may)
  {
    var v := TwoLoopsAreReachable(may);
    var id := if !pc.MustReadSession? then pc.id else if c.Dispatch? && c.ready == Some("a") then "b" else "a";
    var n := if pc.MustResume? then pc.seqNo else 0;
    ReachResuming(v, pc, id, n, may);
    v := Standing(id, n, Some(Session(id, n)));
    Swapped(v, MainLoop, pc, Idle, may);
    StartCallback(v, TimerLoop, pc, c, may);
    Swapped(AfterStart(v, c), TimerLoop, StartPc(v, c), pc, may);
    SendWrongly(AfterStart(v, c), MainLoop, pc, StartPc(v, c), may);
  }

  /** A clash that is let through leads to a wrong RESUME. */
  lemma ClashBreaksResume(pc: LoopPc, c: Callback, may: Discipline)
    requires AllowsSerial(may) && may(pc, c) && Clash(pc, c)
    ensures exists actions :: IsRunUnder(INITIAL, actions, may) && ResumesWrongly(After(INITIAL, actions).f.trace)
  {
    match Owes(pc) {
      case Store(_) => if c == Hello { HelloTooEarly(pc, may); } else { OlderIdStoredLast(pc, c, may); }
      case ResetBoth => if c == Hello { HelloTooEarly(pc, may); } else { SeqNoErased(pc, c, may); }
      case ResetSession => HelloTooEarly(pc, may);
      case Identifying => EndedByIdentify(pc, c, may);
      case _ => ChangedOnTheWay(pc, c, may);
    }
    var actions :| IsWrongRun(actions, may);
    assert IsRunUnder(INITIAL, actions, may) && ResumesWrongly(After(INITIAL, actions).f.trace);
  }

  /** A RESUME that is wrong as the last event is one that is wrong. */
  lemma WrongIsNotRight(t: seq<Event>)
    requires ResumesWrongly(t)
    ensures !ResumesRightly(t)
  {
    assert t[|t| - 1] == Last(t);
  }

  /**
   Exactly when resuming is correct: under a discipline that lets callbacks run one at a time, every RESUME
   of every run is right if and only if the discipline lets no clash through.
   */
  lemma ResumesRightlyIffNoClash(may: Discipline)
    requires AllowsSerial(may)
    ensures (forall actions :: IsRunUnder(INITIAL, actions, may) ==> ResumesRightly(After(INITIAL, actions).f.trace))
       <==> (forall pc, c :: may(pc, c) ==> !Clash(pc, c))
  {
    if forall pc, c :: may(pc, c) ==> !Clash(pc, c) {
      forall actions | IsRunUnder(INITIAL, actions, may) ensures ResumesRightly(After(INITIAL, actions).f.trace) {
        ResumeCorrectness(actions, may);
      }
    } else {
      var pc, c :| may(pc, c) && Clash(pc, c);
      ClashBreaksResume(pc, c, may);
      var actions :| IsRunUnder(INITIAL, actions, may) && ResumesWrongly(After(INITIAL, actions).f.trace);
      WrongIsNotRight(After(INITIAL, actions).f.trace);
    }
  }

  /**
   As it stands the program has no discipline at all. Two of its runs, action by action: in the first the
   session is given up with a close 4009 between the READY and the RESUME, in the second the RESUME is for
   the session before the last READY.
   */
  lemma OverlapBreaksResume()
    ensures IsRun(INITIAL, BOOT + NO_ACK + RESET_BETWEEN)
    ensures var t := After(INITIAL, BOOT + NO_ACK + RESET_BETWEEN).f.trace;
            && |t| == 11 && ResumesWrongly(t)
            && t[7] == Received(READY_A) && EndsSession(t[8]) && t[10] == SentResume(true, "a", -1)
    ensures IsRun(INITIAL, BOOT + NO_ACK + READY_BETWEEN)
    ensures var t := After(INITIAL, BOOT + NO_ACK + READY_BETWEEN).f.trace;
            && |t| == 11 && ResumesWrongly(t)
            && t[9] == Received(READY_B) && t[10] == SentResume(true, "a", 1)
  {
    ResumesAfterReset();
    ResumesOldSession();
    EndsWrongly(After(INITIAL, BOOT + NO_ACK + RESET_BETWEEN).f.trace, -1);
    EndsWrongly(After(INITIAL, BOOT + NO_ACK + READY_BETWEEN).f.trace, 1);
  }

  lemma EndsWrongly(t: seq<Event>, n: int)
    requires |t| == 11 && t[7..][3] == SentResume(true, "a", n) && !Resumable(t, 10, "a", n)
    ensures ResumesWrongly(t) && t[7] == t[7..][0] && t[8] == t[7..][1] && t[9] == t[7..][2] && t[10] == t[7..][3]
  {
  }
}
