/** Which number a heartbeat carries, over every interleaving. */
module Beats {
  import opened Gateway
  import opened Overlaps
  import opened Sequences
  import opened Sessions
  import opened Wrappers

  // --------------------------------------------------------------------------
  // A number that is sent is that of the last dispatch
  // --------------------------------------------------------------------------

  /** The last dispatch before event `i` is event `d`. */
  ghost predicate IsLastDispatch(t: seq<Event>, d: int, i: int) {
    0 <= d < i <= |t| && IsDispatch(t[d]) && forall k :: d < k < i ==> !IsDispatch(t[k])
  }

  predicate IsNumbered(e: Event) {
    e.SentHeartbeat? && e.number.Some? && e.number.value != -1
  }

  /** Each heartbeat with a number, but -1, carries the `s` of the last dispatch before it. */
  ghost predicate BeatsCarryLast(t: seq<Event>) {
    forall i :: 0 <= i < |t| && IsNumbered(t[i]) ==> CarriesLast(t, i)
  }

  ghost predicate CarriesLast(t: seq<Event>, i: int)
    requires 0 <= i < |t| && IsNumbered(t[i])
  {
    exists d :: IsLastDispatch(t, d, i) && t[d].callback.s == t[i].number.value
  }

  /** The number kept is that of the last dispatch, or -1. */
  ghost predicate KeepsLast(f: Fields) {
    && BeatsCarryLast(f.trace)
    && (f.seqNo != -1 ==> exists d :: IsLastDispatch(f.trace, d, |f.trace|) && f.trace[d].callback.s == f.seqNo)
  }

  lemma LastDispatchStays(t: seq<Event>, e: Event, d: int, i: int)
    requires IsLastDispatch(t, d, i)
    ensures IsLastDispatch(t + [e], d, i)
    ensures i == |t| && !IsDispatch(e) ==> IsLastDispatch(t + [e], d, i + 1)
  {
    forall k | d < k < i ensures !IsDispatch((t + [e])[k]) {
      assert (t + [e])[k] == t[k];
    }
  }

  lemma BeatsStayRight(t: seq<Event>, e: Event)
    requires BeatsCarryLast(t)
    requires IsNumbered(e) ==> exists d :: IsLastDispatch(t, d, |t|) && t[d].callback.s == e.number.value
    ensures BeatsCarryLast(t + [e])
  {
    var u := t + [e];
    forall i | 0 <= i < |u| && IsNumbered(u[i]) ensures CarriesLast(u, i) {
      if i < |t| {
        assert u[i] == t[i] && CarriesLast(t, i);
      }
      var d :| IsLastDispatch(t, d, i) && t[d].callback.s == u[i].number.value;
      LastDispatchStays(t, e, d, i);
    }
  }

  /** One more event, and the number as it was, or erased, or set by this dispatch. */
  lemma EventKeepsLast(f: Fields, e: Event, g: Fields)
    requires KeepsLast(f) && g.trace == f.trace + [e]
    requires e.SentHeartbeat? && e.number.Some? ==> e.number.value == f.seqNo
    requires if IsDispatch(e) then g.seqNo == e.callback.s else g.seqNo == f.seqNo || g.seqNo == -1
    ensures KeepsLast(g)
  {
    BeatsStayRight(f.trace, e);
    if g.seqNo != -1 {
      if IsDispatch(e) {
        assert IsLastDispatch(g.trace, |f.trace|, |g.trace|);
      } else {
        var d :| IsLastDispatch(f.trace, d, |f.trace|) && f.trace[d].callback.s == f.seqNo;
        LastDispatchStays(f.trace, e, d, |f.trace|);
      }
    }
  }

  lemma BeginKeepsLast(f: Fields, c: Callback)
    requires KeepsLast(f)
    ensures KeepsLast(Begin(f, c).0)
  {
    var g, h := Log(f, Received(c)), Begin(f, c).0;
    match c
    case Ack =>
      EventKeepsLast(f, Received(c), g);
      EventKeepsLast(g, AckedSet(11), h);
    case _ => EventKeepsLast(f, Received(c), h);
  }

  lemma ProceedKeepsLast(f: Fields, pc: LoopPc)
    requires KeepsLast(f)
    ensures KeepsLast(Proceed(f, pc).0)
  {
    var g := Proceed(f, pc).0;
    match pc
    case MustResume(h, id, n) => EventKeepsLast(f, SentResume(h, id, n), g);
    case MustIdentify => EventKeepsLast(f, SentIdentify, g);
    case Greeted => EventKeepsLast(f, AckedSet(10), g);
    case MustTestNumber => if f.seqNo == -1 { EventKeepsLast(f, SentHeartbeat(false, None), g); }
    case MustReadNumber => EventKeepsLast(f, SentHeartbeat(false, Some(f.seqNo)), g);
    case MustSpawn => EventKeepsLast(f, TimerStarted, g);
    case _ =>
  }

  lemma TickKeepsLast(s: System)
    requires KeepsLast(s.f)
    ensures KeepsLast(DoTick(s).f)
  {
    match s.timer
    case Clearing => EventKeepsLast(s.f, AckedCleared, DoTick(s).f);
    case Beating => if s.f.seqNo == -1 { EventKeepsLast(s.f, SentHeartbeat(true, None), DoTick(s).f); }
    case ReadingNumber => EventKeepsLast(s.f, SentHeartbeat(true, Some(s.f.seqNo)), DoTick(s).f);
    case _ =>
  }

  lemma {:induction false} RunKeepsLast(s: System, actions: seq<Action>)
    requires KeepsLast(s.f) && IsRun(s, actions)
    ensures KeepsLast(After(s, actions).f)
    decreases |actions|
  {
    if actions != [] {
      match actions[0] {
        case Start(l, c) => BeginKeepsLast(s.f, c);
        case Continue(l) => ProceedKeepsLast(s.f, PcOf(s, l));
        case Tick => TickKeepsLast(s);
      }
      RunKeepsLast(Do(s, actions[0]), actions[1..]);
    }
  }

  /** In every run, whatever the three threads do: a heartbeat never carries a stale number. */
  lemma NoStaleBeat(actions: seq<Action>)
    requires IsRun(INITIAL, actions)
    ensures BeatsCarryLast(After(INITIAL, actions).f.trace)
  {
    RunKeepsLast(INITIAL, actions);
  }

  // --------------------------------------------------------------------------
  // When no number is sent
  // --------------------------------------------------------------------------

  /** The number the events leave: that of the last dispatch, unless an identify or a resetting close came after it. */
  function Number(t: seq<Event>): int {
    if t == [] then -1
    else if IsDispatch(Last(t)) then Last(t).callback.s
    else if EndsSession(Last(t)) then -1
    else Number(Front(t))
  }

  /** Event `d` is a dispatch with a number, and none has come since, nor an identify or a resetting close. */
  ghost predicate StillCounts(t: seq<Event>, d: int) {
    && 0 <= d < |t| && IsDispatch(t[d]) && t[d].callback.s != -1
    && forall k :: d < k < |t| ==> !IsDispatch(t[k]) && !EndsSession(t[k])
  }

  lemma {:induction false} NumberMeans(t: seq<Event>)
    ensures Number(t) != -1 <==> exists d :: StillCounts(t, d)
    ensures forall d :: StillCounts(t, d) ==> Number(t) == t[d].callback.s
  {
    if t != [] {
      var front := Front(t);
      NumberMeans(front);
      FrontLast(t);
      forall d | StillCounts(t, d) && d < |front| ensures StillCounts(front, d) && !IsDispatch(Last(t)) && !EndsSession(Last(t)) {
        assert forall k :: d < k < |front| ==> front[k] == t[k];
        assert t[|front|] == Last(t);
      }
      if !IsDispatch(Last(t)) && !EndsSession(Last(t)) {
        forall d | StillCounts(front, d) ensures StillCounts(t, d) {
          assert forall k :: d < k < |t| ==> t[k] == if k < |front| then front[k] else Last(t);
        }
      } else if IsDispatch(Last(t)) && Last(t).callback.s != -1 {
        assert StillCounts(t, |front|);
      }
    }
  }

  /** The number is erased, and the identify that erased it has not gone out yet. */
  predicate Identifies(pc: LoopPc) {
    pc == MustClearSession || pc == MustIdentify
  }

  predicate IsResetting(pc: LoopPc) {
    pc.Closing? && (pc.code == 4003 || pc.code == 4007 || pc.code == 4009)
  }

  /** Unless an identify is on its way, no number is missing that the events have left. */
  predicate NumberKept(s: System) {
    !Identifies(s.main) && !Identifies(s.second) && s.f.seqNo == -1 ==> Number(s.f.trace) == -1
  }

  predicate NumberInv(s: System) {
    && NumberKept(s)
    && (IsResetting(s.main) || IsResetting(s.second) ==> Number(s.f.trace) == -1)
  }

  /** A dispatch in one loop between a resetting close and the first write of its reset in the other. */
  predicate Forgets(pc: LoopPc, c: Callback) {
    IsResetting(pc) && c.Dispatch? && c.s != -1
  }

  lemma LogNumber(f: Fields, e: Event)
    ensures Number(Log(f, e).trace)
         == if IsDispatch(e) then e.callback.s else if EndsSession(e) then -1 else Number(f.trace)
  {
    Snoc(f.trace, e);
  }

  lemma StartKeepsNumber(s: System, l: Loop, c: Callback)
    requires NumberInv(s) && Enabled(s, Start(l, c)) && !Forgets(PcOf(s, Other(l)), c)
    ensures NumberInv(Do(s, Start(l, c)))
  {
    var g := Log(s.f, Received(c));
    LogNumber(s.f, Received(c));
    match c
    case Ack => LogNumber(g.(acked := true), AckedSet(11));
    case _ =>
  }

  /** What a piece adds to the events. */
  function Logged(f: Fields, pc: LoopPc): (es: seq<Event>)
    ensures |es| <= 1
  {
    match pc
    case MustResume(h, id, n) => [SentResume(h, id, n)]
    case MustIdentify => [SentIdentify]
    case Greeted => [AckedSet(10)]
    case MustTestNumber => if f.seqNo == -1 then [SentHeartbeat(false, None)] else []
    case MustReadNumber => [SentHeartbeat(false, Some(f.seqNo))]
    case MustSpawn => [TimerStarted]
    case _ => []
  }

  lemma PieceLogs(f: Fields, pc: LoopPc)
    ensures Proceed(f, pc).0.trace == f.trace + Logged(f, pc)
  {
  }

  lemma PieceFields(f: Fields, pc: LoopPc)
    ensures Proceed(f, pc).0.seqNo == if pc == MustClearSeq || IsResetting(pc) then -1 else f.seqNo
    ensures Identifies(Proceed(f, pc).1) <==> pc == MustClearSeq || pc == MustClearSession
    ensures !IsResetting(Proceed(f, pc).1)
  {
  }

  /** What a piece does to what the events leave of the number. */
  lemma PieceNumber(f: Fields, pc: LoopPc)
    ensures Number(Proceed(f, pc).0.trace) == if pc == MustIdentify then -1 else Number(f.trace)
  {
    PieceLogs(f, pc);
    if Logged(f, pc) != [] {
      LogNumber(f, Logged(f, pc)[0]);
    }
  }

  lemma ContinueKeepsNumber(s: System, l: Loop)
    requires NumberInv(s) && Enabled(s, Continue(l))
    ensures NumberInv(Do(s, Continue(l)))
  {
    var (g, next) := Proceed(s.f, PcOf(s, l));
    PieceFields(s.f, PcOf(s, l));
    PieceNumber(s.f, PcOf(s, l));
    AfterPieceKept(s, l, g, next, Do(s, Continue(l)));
  }

  lemma AfterPieceKept(s: System, l: Loop, g: Fields, next: LoopPc, t: System)
    requires NumberInv(s) && t.f == g && PcOf(t, l) == next && PcOf(t, Other(l)) == PcOf(s, Other(l))
    requires var pc := PcOf(s, l);
             && Number(g.trace) == (if pc == MustIdentify then -1 else Number(s.f.trace))
             && g.seqNo == (if pc == MustClearSeq || IsResetting(pc) then -1 else s.f.seqNo)
             && (Identifies(next) <==> pc == MustClearSeq || pc == MustClearSession) && !IsResetting(next)
    ensures NumberInv(t)
  {
  }

  lemma TickKeepsNumber(s: System)
    requires NumberInv(s)
    ensures NumberInv(DoTick(s))
  {
    match s.timer
    case Clearing => LogNumber(s.f.(acked := false), AckedCleared);
    case Beating => LogNumber(s.f, SentHeartbeat(true, None));
    case ReadingNumber => LogNumber(s.f, SentHeartbeat(true, Some(s.f.seqNo)));
    case _ =>
  }

  lemma {:induction false} RunKeepsNumber(s: System, actions: seq<Action>, may: Discipline)
    requires NumberInv(s) && IsRunUnder(s, actions, may)
    requires forall pc, c :: may(pc, c) ==> !Forgets(pc, c)
    ensures NumberInv(After(s, actions))
    decreases |actions|
  {
    if actions != [] {
      match actions[0] {
        case Start(l, c) => StartKeepsNumber(s, l, c);
        case Continue(l) => ContinueKeepsNumber(s, l);
        case Tick => TickKeepsNumber(s);
      }
      RunKeepsNumber(Do(s, actions[0]), actions[1..], may);
    }
  }

  /** In all runs under the discipline, the number is kept at every point. */
  ghost predicate KeepsNumbers(may: Discipline) {
    forall s :: Reachable(s, may) ==> NumberKept(s)
  }

  /** A dispatch let in at the wrong moment is forgotten although nothing ended the session since. */
  lemma ForgottenDispatch(pc: LoopPc, c: Callback, may: Discipline)
    requires AllowsSerial(may) && may(pc, c) && Forgets(pc, c)
    ensures !KeepsNumbers(may)
  {
    var v := TwoLoopsAreReachable(may);
    var f :| ReachedWith(f, v, MainLoop, Idle, Idle, may);
    var closed := Log(f, Received(Closed(pc.code))).(open := false);
    ReachNext(Both(f, MainLoop, Idle, Idle), Start(MainLoop, Closed(pc.code)), Both(closed, MainLoop, pc, Idle), may);
    ForgottenBeforeReset(closed, pc, c, may);
  }

  lemma ForgottenBeforeReset(f: Fields, pc: LoopPc, c: Callback, may: Discipline)
    requires Reachable(Both(f, MainLoop, pc, Idle), may) && may(pc, c) && Forgets(pc, c)
    ensures !KeepsNumbers(may)
  {
    var g := Log(f, Received(c)).(seqNo := c.s);
    ReachNext(Both(f, MainLoop, pc, Idle), Start(TimerLoop, c), Both(g, MainLoop, pc, SeqStored(c.ready)), may);
    LogNumber(f, Received(c));
    ForgottenByReset(g, pc, SeqStored(c.ready), may);
  }

  lemma ForgottenByReset(f: Fields, pc: LoopPc, other: LoopPc, may: Discipline)
    requires Reachable(Both(f, MainLoop, pc, other), may) && IsResetting(pc) && other.SeqStored? && Number(f.trace) != -1
    ensures !KeepsNumbers(may)
  {
    var s := Both(f.(seqNo := -1), MainLoop, SeqReset, other);
    ReachNext(Both(f, MainLoop, pc, other), Continue(MainLoop), s, may);
    assert !NumberKept(s);
  }

  /** Exactly this has to be ruled out for numbers not to be forgotten. */
  lemma KeepsNumbersIff(may: Discipline)
    requires AllowsSerial(may)
    ensures KeepsNumbers(may) <==> forall pc, c :: may(pc, c) ==> !Forgets(pc, c)
  {
    if forall pc, c :: may(pc, c) ==> !Forgets(pc, c) {
      forall s | Reachable(s, may) ensures NumberKept(s) {
        var actions :| Reaches(actions, s, may);
        RunKeepsNumber(INITIAL, actions, may);
      }
    } else {
      var pc, c :| may(pc, c) && Forgets(pc, c);
      ForgottenDispatch(pc, c, may);
    }
  }

  // --------------------------------------------------------------------------
  // The number -1
  // --------------------------------------------------------------------------

  /** If these events were added, the last of them is no heartbeat, or one of this thread: with the number, or null for -1. */
  predicate SaysNumber(t: seq<Event>, u: seq<Event>, seqNo: int, byTimer: bool) {
    |u| > |t| && Last(u).SentHeartbeat? ==>
      Last(u) == SentHeartbeat(byTimer, Some(seqNo)) || (seqNo == -1 && Last(u) == SentHeartbeat(byTimer, None))
  }

  lemma BeginSaysNumber(f: Fields, c: Callback)
    ensures SaysNumber(f.trace, Begin(f, c).0.trace, f.seqNo, false)
  {
  }

  lemma ProceedSaysNumber(f: Fields, pc: LoopPc)
    ensures SaysNumber(f.trace, Proceed(f, pc).0.trace, f.seqNo, false)
  {
    PieceLogs(f, pc);
  }

  /** Whoever sends a heartbeat sends the number as it is kept at that moment. */
  lemma BeatSaysNumber(s: System, a: Action)
    requires Enabled(s, a)
    ensures SaysNumber(s.f.trace, Do(s, a).f.trace, s.f.seqNo, a == Tick)
  {
    match a
    case Start(l, c) => BeginSaysNumber(s.f, c);
    case Continue(l) => ProceedSaysNumber(s.f, PcOf(s, l));
    case Tick =>
  }

  /** Some thread has found that there is a number, and has not read it yet. */
  predicate HasTested(s: System) {
    s.main == MustReadNumber || s.second == MustReadNumber || s.timer == ReadingNumber
  }

  /** The action erases the number. */
  predicate Erases(s: System, a: Action) {
    s.f.seqNo != -1 && Do(s, a).f.seqNo == -1
  }

  /** No number is erased between the test and the read of a heartbeat. */
  predicate IsCareful(s: System, actions: seq<Action>)
    decreases |actions|
  {
    actions == [] || (!(HasTested(s) && Erases(s, actions[0])) && IsCareful(Do(s, actions[0]), actions[1..]))
  }

  /** No heartbeat carries -1 as a number. */
  ghost predicate NoMinusOne(t: seq<Event>) {
    forall e :: e in t && e.SentHeartbeat? ==> e.number != Some(-1)
  }

  /** A test that finds a number leads to a read, which is the only thing that sends one. */
  lemma TestedStep(s: System, a: Action)
    requires Enabled(s, a) && (HasTested(s) ==> s.f.seqNo != -1) && !(HasTested(s) && Erases(s, a))
    ensures HasTested(Do(s, a)) ==> Do(s, a).f.seqNo != -1
  {
  }

  /** What is new among the events is no heartbeat with -1 as its number. */
  predicate AddsNoMinusOne(t: seq<Event>, u: seq<Event>) {
    forall e :: e in u ==> e in t || (e.SentHeartbeat? ==> e.number != Some(-1))
  }

  lemma PieceSends(f: Fields, pc: LoopPc)
    requires pc == MustReadNumber ==> f.seqNo != -1
    ensures AddsNoMinusOne(f.trace, Proceed(f, pc).0.trace)
  {
    PieceLogs(f, pc);
  }

  lemma NumbersSent(s: System, a: Action)
    requires Enabled(s, a) && (HasTested(s) ==> s.f.seqNo != -1)
    ensures AddsNoMinusOne(s.f.trace, Do(s, a).f.trace)
  {
    match a
    case Start(l, c) =>
    case Continue(l) => PieceSends(s.f, PcOf(s, l));
    case Tick =>
  }

  /** In a run in which no number is erased in between, -1 is never sent as a number. */
  lemma {:induction false} CarefulRun(s: System, actions: seq<Action>)
    requires IsRun(s, actions) && IsCareful(s, actions)
    requires NoMinusOne(s.f.trace) && (HasTested(s) ==> s.f.seqNo != -1)
    ensures NoMinusOne(After(s, actions).f.trace)
    decreases |actions|
  {
    if actions != [] {
      TestedStep(s, actions[0]);
      NumbersSent(s, actions[0]);
      CarefulRun(Do(s, actions[0]), actions[1..]);
    }
  }

  lemma CarefulConnection(actions: seq<Action>)
    requires IsRun(INITIAL, actions) && IsCareful(INITIAL, actions)
    ensures NoMinusOne(After(INITIAL, actions).f.trace)
  {
    CarefulRun(INITIAL, actions);
  }

  /** What sends the number that a thread has tested. */
  predicate MinusOneFollows(s: System, b: Action) {
    Enabled(s, b) && Do(s, b).f.trace != [] && Last(Do(s, b).f.trace) == SentHeartbeat(b == Tick, Some(-1))
  }

  /** And if one is erased, the thread that has tested it may go on at once and send -1. */
  lemma ErasedIsSent(s: System, a: Action)
    requires Enabled(s, a) && HasTested(s) && Erases(s, a)
    ensures exists b :: MinusOneFollows(Do(s, a), b)
  {
    var t := Do(s, a);
    if s.timer == ReadingNumber {
      assert MinusOneFollows(t, Tick);
    } else {
      var l := if s.main == MustReadNumber then MainLoop else TimerLoop;
      ErasedByOther(s, a, l);
      assert MinusOneFollows(t, Continue(l));
    }
  }

  lemma ErasedByOther(s: System, a: Action, l: Loop)
    requires Enabled(s, a) && Erases(s, a) && PcOf(s, l) == MustReadNumber
    ensures PcOf(Do(s, a), l) == MustReadNumber && !Do(s, a).terminated
  {
  }
}
