/** Heartbeat discipline of a gateway `Connection`, over every interleaving of its threads. */
module Heartbeats {
  import opened Gateway
  import opened Sequences
  import opened Wrappers

  predicate IsTimerBeat(e: Event) {
    e.SentHeartbeat? && e.byTimer
  }

  /**
   What the events say about the timer. `renewed`: `acked` has been set since it was last cleared, if it ever
   was. `due`: it was cleared and the heartbeat has not gone out yet. `starts`: how many threads were
   started. `disciplined`: each clearing came when renewed and not due, each timer heartbeat when due.
   */
  datatype View = View(disciplined: bool, renewed: bool, due: bool, starts: nat)

  function Advance(v: View, e: Event): View {
    match e
    case AckedSet(op) => v.(renewed := true, disciplined := v.disciplined && (op == 10 || op == 11))
    case AckedCleared => View(v.disciplined && v.renewed && !v.due, false, true, v.starts)
    case SentHeartbeat(byTimer, _) =>
      if byTimer then v.(disciplined := v.disciplined && v.due, due := false) else v
    case TimerStarted => v.(starts := v.starts + 1)
    case _ => v
  }

  function ViewOf(t: seq<Event>): View {
    if t == [] then View(true, true, false, 0) else Advance(ViewOf(Front(t)), Last(t))
  }

  ghost predicate TimerInv(s: System) {
    var v := ViewOf(s.f.trace);
    && v.disciplined
    && (s.f.acked || s.timer == TestingOpen || s.timer == Clearing ==> v.renewed)
    && (s.timer == Beating || s.timer == ReadingNumber <==> v.due)
    && v.starts == (if s.timer == Off then 0 else 1)
    && (s.timer != Off || s.main == MustSpawn ==> s.f.heartbeatStarted)
    && (s.main == MustStart || s.main == MustSpawn ==> s.timer == Off)
    && (s.second != Idle ==> s.timer == Reconnecting)
    && s.second != MustStart && s.second != MustSpawn
  }

  lemma LogView(f: Fields, e: Event)
    ensures ViewOf(Log(f, e).trace) == Advance(ViewOf(f.trace), e)
  {
    Snoc(f.trace, e);
  }

  /** A step of a callback can only renew and start threads. */
  predicate SameBut(v: View, w: View, renews: bool, starts: nat) {
    w == v.(renewed := renews || v.renewed, starts := v.starts + starts)
  }

  /** An event that does not concern the timer. */
  lemma NeutralView(f: Fields, g: Fields, e: Event)
    requires g.trace == f.trace + [e] && !e.AckedSet? && e != AckedCleared && e != TimerStarted && !IsTimerBeat(e)
    ensures ViewOf(g.trace) == ViewOf(f.trace)
  {
    Snoc(f.trace, e);
  }

  lemma RenewView(f: Fields, g: Fields, op: int)
    requires g.trace == f.trace + [AckedSet(op)] && (op == 10 || op == 11)
    ensures SameBut(ViewOf(f.trace), ViewOf(g.trace), true, 0)
  {
    Snoc(f.trace, AckedSet(op));
  }

  lemma SpawnView(f: Fields, g: Fields)
    requires g.trace == f.trace + [TimerStarted]
    ensures SameBut(ViewOf(f.trace), ViewOf(g.trace), false, 1)
  {
    Snoc(f.trace, TimerStarted);
  }

  lemma AckView(f: Fields)
    ensures SameBut(ViewOf(f.trace), ViewOf(Begin(f, Ack).0.trace), true, 0)
  {
    var g := Log(f, Received(Ack));
    NeutralView(f, g, Received(Ack));
    RenewView(g, Begin(f, Ack).0, 11);
  }

  lemma OtherView(f: Fields, c: Callback, h: Fields)
    requires c != Ack && Begin(f, c).0 == h
    ensures ViewOf(h.trace) == ViewOf(f.trace)
  {
    var g := Log(f, Received(c));
    NeutralView(f, g, Received(c));
  }

  /** What the first piece of a callback can do to the timer's affairs. */
  lemma BeginView(f: Fields, c: Callback, h: Fields, pc: LoopPc)
    requires Begin(f, c) == (h, pc)
    ensures SameBut(ViewOf(f.trace), ViewOf(h.trace), c == Ack, 0)
    ensures h.heartbeatStarted == f.heartbeatStarted && h.acked == (c == Ack || f.acked)
    ensures pc != MustStart && pc != MustSpawn
  {
    if c == Ack {
      AckView(f);
    } else {
      OtherView(f, c, h);
    }
  }

  lemma ProceedTrace(f: Fields, pc: LoopPc, g: Fields)
    requires Proceed(f, pc).0 == g
    ensures SameBut(ViewOf(f.trace), ViewOf(g.trace), pc == Greeted, if pc == MustSpawn then 1 else 0)
  {
    match pc
    case MustResume(h, id, n) => NeutralView(f, g, SentResume(h, id, n));
    case MustIdentify => NeutralView(f, g, SentIdentify);
    case Greeted => RenewView(f, g, 10);
    case MustTestNumber => if f.seqNo == -1 { NeutralView(f, g, SentHeartbeat(false, None)); }
    case MustReadNumber => NeutralView(f, g, SentHeartbeat(false, Some(f.seqNo)));
    case MustSpawn => SpawnView(f, g);
    case _ => assert g.trace == f.trace;
  }

  /** What a later piece can do to them. */
  lemma ProceedView(f: Fields, pc: LoopPc, g: Fields, next: LoopPc)
    requires Proceed(f, pc) == (g, next)
    ensures SameBut(ViewOf(f.trace), ViewOf(g.trace), pc == Greeted, if pc == MustSpawn then 1 else 0)
    ensures g.acked == (pc == Greeted || f.acked)
    ensures g.heartbeatStarted == (pc == MustStart || f.heartbeatStarted)
    ensures next == MustStart <==> pc == AckStored && !f.heartbeatStarted
    ensures next == MustSpawn <==> pc == MustStart
  {
    ProceedTrace(f, pc, g);
  }

  lemma StartKeepsTimerInv(s: System, l: Loop, c: Callback)
    requires TimerInv(s) && Enabled(s, Start(l, c))
    ensures TimerInv(Do(s, Start(l, c)))
  {
    var (g, pc) := Begin(s.f, c);
    BeginView(s.f, c, g, pc);
  }

  lemma ContinueKeepsTimerInv(s: System, l: Loop)
    requires TimerInv(s) && Enabled(s, Continue(l))
    ensures TimerInv(Do(s, Continue(l)))
  {
    var (g, next) := Proceed(s.f, PcOf(s, l));
    ProceedView(s.f, PcOf(s, l), g, next);
    if l == TimerLoop {
      assert s.f.heartbeatStarted && next != MustStart;
    } else if s.main == MustSpawn {
      assert s.second == Idle;
    }
  }

  lemma TickKeepsTimerInv(s: System)
    requires TimerInv(s) && Enabled(s, Tick)
    ensures TimerInv(DoTick(s))
  {
    match s.timer
    case Clearing => LogView(s.f.(acked := false), AckedCleared);
    case Beating => LogView(s.f, SentHeartbeat(true, None));
    case ReadingNumber => LogView(s.f, SentHeartbeat(true, Some(s.f.seqNo)));
    case _ =>
  }

  lemma StepKeepsTimerInv(s: System, a: Action)
    requires TimerInv(s) && Enabled(s, a)
    ensures TimerInv(Do(s, a))
  {
    match a
    case Start(l, c) => StartKeepsTimerInv(s, l, c);
    case Continue(l) => ContinueKeepsTimerInv(s, l);
    case Tick => TickKeepsTimerInv(s);
  }

  lemma {:induction false} RunKeepsTimerInv(s: System, actions: seq<Action>)
    requires TimerInv(s) && IsRun(s, actions)
    ensures TimerInv(After(s, actions))
    decreases |actions|
  {
    if actions != [] {
      StepKeepsTimerInv(s, actions[0]);
      RunKeepsTimerInv(Do(s, actions[0]), actions[1..]);
    }
  }

  /** The clearing that belongs to a heartbeat that is due. */
  lemma {:induction false} DueSince(t: seq<Event>) returns (c: nat)
    requires ViewOf(t).due
    ensures c < |t| && t[c] == AckedCleared
    ensures forall k :: c < k < |t| ==> t[k] != AckedCleared && !IsTimerBeat(t[k])
  {
    if Last(t) == AckedCleared {
      c := |t| - 1;
    } else {
      c := DueSince(Front(t));
      forall k | c < k < |t| ensures t[k] != AckedCleared && !IsTimerBeat(t[k]) {
        if k < |t| - 1 { assert Front(t)[k] == t[k]; }
      }
    }
  }

  /** A message with op 10 or op 11 set `acked`. */
  predicate IsAck(e: Event) {
    e == AckedSet(10) || e == AckedSet(11)
  }

  /** A clearing in renewed events has been made good by a later setting. */
  lemma {:induction false} FreshSince(t: seq<Event>, c: nat) returns (k: nat)
    requires ViewOf(t).renewed && ViewOf(t).disciplined && c < |t| && t[c] == AckedCleared
    ensures c < k < |t| && IsAck(t[k])
  {
    if Last(t).AckedSet? {
      k := |t| - 1;
    } else {
      assert Front(t)[c] == t[c];
      k := FreshSince(Front(t), c);
    }
  }

  lemma {:induction false} DisciplinedPrefix(t: seq<Event>, n: nat)
    requires ViewOf(t).disciplined && n <= |t|
    ensures ViewOf(t[..n]).disciplined
  {
    if n < |t| {
      DisciplinedPrefix(Front(t), n);
      assert Front(t)[..n] == t[..n];
    } else {
      assert t[..n] == t;
    }
  }

  /** The clearing before event `i`, a timer heartbeat, with neither a clearing nor a timer heartbeat in between. */
  ghost predicate ClearingOf(t: seq<Event>, c: nat, i: nat) {
    && c < i < |t| && t[c] == AckedCleared
    && forall k :: c < k < i ==> t[k] != AckedCleared && !IsTimerBeat(t[k])
  }

  lemma ClearingBefore(t: seq<Event>, i: nat) returns (c: nat)
    requires ViewOf(t).disciplined && i < |t| && IsTimerBeat(t[i])
    ensures ClearingOf(t, c, i)
  {
    DisciplinedPrefix(t, i + 1);
    assert Front(t[..i + 1]) == t[..i];
    c := DueSince(t[..i]);
    forall k | c < k < i ensures t[k] != AckedCleared && !IsTimerBeat(t[k]) {
      assert t[..i][k] == t[k];
    }
  }

  /** Between two timer heartbeats `acked` was set, after the first one's clearing and before the second one's. */
  ghost predicate AckedBetween(t: seq<Event>, i: nat, j: nat) {
    exists c, k, d :: ClearingOf(t, c, i) && ClearingOf(t, d, j) && c < k < d && IsAck(t[k])
  }

  lemma AckBetweenBeats(t: seq<Event>, i: nat, j: nat)
    requires ViewOf(t).disciplined && i < j < |t| && IsTimerBeat(t[i]) && IsTimerBeat(t[j])
    ensures AckedBetween(t, i, j)
  {
    var c := ClearingBefore(t, i);
    var d := ClearingBefore(t, j);
    assert i < d;
    DisciplinedPrefix(t, d + 1);
    assert Front(t[..d + 1]) == t[..d];
    DisciplinedPrefix(t, d);
    assert t[..d][c] == t[c];
    var k := FreshSince(t[..d], c);
    assert t[..d][k] == t[k];
  }

  /** At most one timer thread was started. */
  ghost predicate StartsOnce(t: seq<Event>) {
    forall i, j :: 0 <= i < j < |t| ==> t[i] != TimerStarted || t[j] != TimerStarted
  }

  lemma OneTimerThread(actions: seq<Action>)
    requires IsRun(INITIAL, actions)
    ensures StartsOnce(After(INITIAL, actions).f.trace)
  {
    RunKeepsTimerInv(INITIAL, actions);
    var t := After(INITIAL, actions).f.trace;
    forall i, j | 0 <= i < j < |t| ensures t[i] != TimerStarted || t[j] != TimerStarted {
      if t[i] == TimerStarted == t[j] {
        StartsAtLeast(t, i, j);
      }
    }
  }

  /**
   Heartbeat discipline for every run of a new connection, the second event loop included: one timer thread
   at most is started, and between two of its heartbeats a message with op 10 or 11 was processed.
   */
  lemma HeartbeatDiscipline(actions: seq<Action>)
    requires IsRun(INITIAL, actions)
    ensures var t := After(INITIAL, actions).f.trace;
            && StartsOnce(t)
            && (forall i, j :: 0 <= i < j < |t| && IsTimerBeat(t[i]) && IsTimerBeat(t[j]) ==> AckedBetween(t, i, j))
  {
    OneTimerThread(actions);
    RunKeepsTimerInv(INITIAL, actions);
    var t := After(INITIAL, actions).f.trace;
    forall i, j | 0 <= i < j < |t| && IsTimerBeat(t[i]) && IsTimerBeat(t[j]) ensures AckedBetween(t, i, j) {
      AckBetweenBeats(t, i, j);
    }
  }

  lemma {:induction false} StartsAtLeast(t: seq<Event>, i: nat, j: nat)
    requires i <= j < |t| && t[i] == TimerStarted == t[j]
    ensures ViewOf(t).starts >= if i < j then 2 else 1
  {
    if j < |t| - 1 {
      assert Front(t)[i] == t[i] && Front(t)[j] == t[j];
      StartsAtLeast(Front(t), i, j);
    } else if i < j {
      assert Front(t)[i] == t[i];
      StartsAtLeast(Front(t), i, i);
    }
  }
}
