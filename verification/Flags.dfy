/** What the flags of a connection say, over every interleaving, what its timer thread decides by, and when it ends. */
module Flags {
  import opened Beats
  import opened Gateway
  import opened Heartbeats
  import opened Sequences
  import opened Wrappers

  /** The last of the connection events was an opening. */
  predicate IsConnected(t: seq<Event>) {
    if t == [] then false
    else if Last(t) == Received(Opened) then true
    else if Last(t) == Received(Failed) || (Last(t).Received? && Last(t).callback.Closed?) then false
    else IsConnected(Front(t))
  }

  /** A close after which the connection is given up for good. */
  predicate IsFinal(e: Event) {
    e.Received? && e.callback.Closed? && (e.callback.code == 4004 || e.callback.code == 4010 || e.callback.code == 4011)
  }

  predicate WasFinal(t: seq<Event>) {
    t != [] && (IsFinal(Last(t)) || WasFinal(Front(t)))
  }

  /** The last write to `acked` set it, or there was none. */
  predicate IsAcked(t: seq<Event>) {
    t == [] || Last(t).AckedSet? || (Last(t) != AckedCleared && IsAcked(Front(t)))
  }

  /** How one more event changes what the events say of the flags. */
  lemma FlagsMore(t: seq<Event>, e: Event)
    ensures var u := t + [e];
            && IsAcked(u) == (e.AckedSet? || (e != AckedCleared && IsAcked(t)))
            && WasFinal(u) == (IsFinal(e) || WasFinal(t))
            && IsConnected(u) == (e == Received(Opened)
                                  || (IsConnected(t) && e != Received(Failed) && !(e.Received? && e.callback.Closed?)))
  {
    Snoc(t, e);
  }

  // --------------------------------------------------------------------------
  // The flags over every interleaving
  // --------------------------------------------------------------------------

  /** A close for good is logged, and its callback has not come to `destroy` yet. */
  predicate IsDestroying(pc: LoopPc) {
    pc.Closing? && (pc.code == 4004 || pc.code == 4010 || pc.code == 4011)
  }

  /** `open` and `acked` are what the events say; `heartbeatOpen` ends when a close for good has been carried out. */
  predicate FlagsOk(f: Fields, pc: LoopPc, other: LoopPc) {
    && f.open == IsConnected(f.trace)
    && f.acked == IsAcked(f.trace)
    && (!f.heartbeatOpen || IsDestroying(pc) || IsDestroying(other) ==> WasFinal(f.trace))
    && (WasFinal(f.trace) ==> !f.heartbeatOpen || IsDestroying(pc) || IsDestroying(other))
  }

  lemma SilentFlags(f: Fields, g: Fields, e: Event)
    requires g.trace == f.trace + [e] && g.open == f.open && g.heartbeatOpen == f.heartbeatOpen
    requires e.Received? ==> !e.callback.Opened? && !e.callback.Failed? && !e.callback.Closed?
    ensures IsConnected(g.trace) == IsConnected(f.trace) && WasFinal(g.trace) == WasFinal(f.trace)
    ensures IsAcked(g.trace) == (e.AckedSet? || (e != AckedCleared && IsAcked(f.trace)))
  {
    FlagsMore(f.trace, e);
  }

  lemma BeginKeepsFlags(f: Fields, c: Callback, other: LoopPc)
    requires FlagsOk(f, Idle, other)
    ensures FlagsOk(Begin(f, c).0, Begin(f, c).1, other)
  {
    var g, h := Log(f, Received(c)), Begin(f, c).0;
    FlagsMore(f.trace, Received(c));
    match c
    case Ack => SilentFlags(g.(acked := true), h, AckedSet(11));
    case _ =>
  }

  /** What a later piece does to the flags. */
  lemma PieceFlags(f: Fields, pc: LoopPc)
    ensures Proceed(f, pc).0.open == f.open
    ensures Proceed(f, pc).0.acked == (pc == Greeted || f.acked)
    ensures Proceed(f, pc).0.heartbeatOpen == (f.heartbeatOpen && !IsDestroying(pc))
    ensures !IsDestroying(Proceed(f, pc).1)
  {
  }

  /** What it does to what the events say of them. */
  lemma PieceSays(f: Fields, pc: LoopPc)
    ensures var t := Proceed(f, pc).0.trace;
            && IsConnected(t) == IsConnected(f.trace) && WasFinal(t) == WasFinal(f.trace)
            && IsAcked(t) == (pc == Greeted || IsAcked(f.trace))
  {
    PieceLogs(f, pc);
    if Logged(f, pc) != [] {
      FlagsMore(f.trace, Logged(f, pc)[0]);
    }
  }

  lemma ProceedKeepsFlags(f: Fields, pc: LoopPc, other: LoopPc)
    requires FlagsOk(f, pc, other)
    ensures FlagsOk(Proceed(f, pc).0, Proceed(f, pc).1, other)
  {
    PieceFlags(f, pc);
    PieceSays(f, pc);
    AfterPieceFlags(f, pc, other, Proceed(f, pc).0, Proceed(f, pc).1);
  }

  lemma AfterPieceFlags(f: Fields, pc: LoopPc, other: LoopPc, g: Fields, next: LoopPc)
    requires FlagsOk(f, pc, other)
    requires IsConnected(g.trace) == IsConnected(f.trace) && WasFinal(g.trace) == WasFinal(f.trace)
    requires IsAcked(g.trace) == (pc == Greeted || IsAcked(f.trace))
    requires g.open == f.open && g.acked == (pc == Greeted || f.acked)
    requires g.heartbeatOpen == (f.heartbeatOpen && !IsDestroying(pc)) && !IsDestroying(next)
    ensures FlagsOk(g, next, other)
  {
  }

  lemma TickKeepsFlags(s: System)
    requires FlagsOk(s.f, s.main, s.second)
    ensures FlagsOk(DoTick(s).f, s.main, s.second)
  {
    match s.timer
    case Clearing => SilentFlags(s.f, DoTick(s).f, AckedCleared);
    case Beating => if s.f.seqNo == -1 { SilentFlags(s.f, DoTick(s).f, SentHeartbeat(true, None)); }
    case ReadingNumber => SilentFlags(s.f, DoTick(s).f, SentHeartbeat(true, Some(s.f.seqNo)));
    case _ =>
  }

  lemma FlagsSwap(f: Fields, pc: LoopPc, other: LoopPc)
    ensures FlagsOk(f, pc, other) == FlagsOk(f, other, pc)
  {
  }

  lemma StepKeepsFlags(s: System, a: Action)
    requires FlagsOk(s.f, s.main, s.second) && Enabled(s, a)
    ensures FlagsOk(Do(s, a).f, Do(s, a).main, Do(s, a).second)
  {
    match a
    case Start(l, c) =>
      BeginKeepsFlags(s.f, c, PcOf(s, Other(l)));
      FlagsSwap(Begin(s.f, c).0, Begin(s.f, c).1, PcOf(s, Other(l)));
    case Continue(l) =>
      ProceedKeepsFlags(s.f, PcOf(s, l), PcOf(s, Other(l)));
      FlagsSwap(Proceed(s.f, PcOf(s, l)).0, Proceed(s.f, PcOf(s, l)).1, PcOf(s, Other(l)));
    case Tick => TickKeepsFlags(s);
  }

  /** In every run, at every point. */
  lemma {:induction false} RunKeepsFlags(s: System, actions: seq<Action>)
    requires FlagsOk(s.f, s.main, s.second) && IsRun(s, actions)
    ensures var t := After(s, actions);
            FlagsOk(t.f, t.main, t.second)
    decreases |actions|
  {
    if actions != [] {
      StepKeepsFlags(s, actions[0]);
      RunKeepsFlags(Do(s, actions[0]), actions[1..]);
    }
  }

  // --------------------------------------------------------------------------
  // The end of the heartbeat
  // --------------------------------------------------------------------------

  /** How many heartbeats the timer thread has sent. */
  function TimerBeats(t: seq<Event>): nat {
    if t == [] then 0 else TimerBeats(Front(t)) + (if IsTimerBeat(Last(t)) then 1 else 0)
  }

  /** How many it may still send once `heartbeatOpen` is false: the one it is waiting or preparing to send. */
  function Budget(timer: TimerPc): nat {
    match timer
    case Sleeping => 1
    case TestingAck => 1
    case TestingOpen => 1
    case Clearing => 1
    case Beating => 1
    case ReadingNumber => 1
    case _ => 0
  }

  lemma BeatsMore(t: seq<Event>, e: Event)
    ensures TimerBeats(t + [e]) == TimerBeats(t) + (if IsTimerBeat(e) then 1 else 0)
  {
    Snoc(t, e);
  }

  lemma BeginBeats(f: Fields, c: Callback)
    ensures TimerBeats(Begin(f, c).0.trace) == TimerBeats(f.trace) && Begin(f, c).0.heartbeatOpen == f.heartbeatOpen
  {
    var g := Log(f, Received(c));
    BeatsMore(f.trace, Received(c));
    match c
    case Ack => BeatsMore(g.trace, AckedSet(11));
    case _ =>
  }

  lemma ProceedBeats(f: Fields, pc: LoopPc)
    ensures TimerBeats(Proceed(f, pc).0.trace) == TimerBeats(f.trace)
    ensures Proceed(f, pc).0.heartbeatOpen ==> f.heartbeatOpen
  {
    PieceLogs(f, pc);
    PieceFlags(f, pc);
    if Logged(f, pc) != [] {
      BeatsMore(f.trace, Logged(f, pc)[0]);
    }
  }

  predicate Spends(s: System, t: System) {
    !t.f.heartbeatOpen && TimerBeats(t.f.trace) + Budget(t.timer) <= TimerBeats(s.f.trace) + Budget(s.timer)
  }

  lemma StartSpends(s: System, l: Loop, c: Callback)
    requires !s.f.heartbeatOpen
    ensures Spends(s, Do(s, Start(l, c)))
  {
    BeginBeats(s.f, c);
  }

  lemma ContinueSpends(s: System, l: Loop)
    requires !s.f.heartbeatOpen
    ensures Spends(s, Do(s, Continue(l)))
  {
    ProceedBeats(s.f, PcOf(s, l));
  }

  lemma TickSpends(s: System)
    requires !s.f.heartbeatOpen
    ensures Spends(s, DoTick(s))
  {
    match s.timer
    case Clearing =>
      BeatsMore(s.f.trace, AckedCleared);
      assert !IsTimerBeat(AckedCleared);
    case Beating => if s.f.seqNo == -1 { BeatsMore(s.f.trace, SentHeartbeat(true, None)); }
    case ReadingNumber => BeatsMore(s.f.trace, SentHeartbeat(true, Some(s.f.seqNo)));
    case _ => assert DoTick(s).f.trace == s.f.trace;
  }

  lemma {:induction false} RunSpends(s: System, actions: seq<Action>)
    requires !s.f.heartbeatOpen && IsRun(s, actions)
    ensures TimerBeats(After(s, actions).f.trace) <= TimerBeats(s.f.trace) + Budget(s.timer)
    decreases |actions|
  {
    if actions != [] {
      match actions[0] {
        case Start(l, c) => StartSpends(s, l, c);
        case Continue(l) => ContinueSpends(s, l);
        case Tick => TickSpends(s);
      }
      RunSpends(Do(s, actions[0]), actions[1..]);
    }
  }

  /**
   Once a close 4004, 4010 or 4011 has been carried out, the timer thread sends one more heartbeat at most,
   whatever else the connection receives.
   */
  lemma HeartbeatEnds(before: seq<Action>, after: seq<Action>)
    requires IsRun(INITIAL, before) && IsRun(After(INITIAL, before), after)
    requires var s := After(INITIAL, before);
             WasFinal(s.f.trace) && !IsDestroying(s.main) && !IsDestroying(s.second)
    ensures var s := After(INITIAL, before);
            TimerBeats(After(s, after).f.trace) <= TimerBeats(s.f.trace) + 1
  {
    RunKeepsFlags(INITIAL, before);
    RunSpends(After(INITIAL, before), after);
  }

  /**
   What the timer thread decides by, at every point of every run: it goes on while no close for good has been
   carried out, reconnects if its last clearing of `acked` has not been made good, and beats only while the last
   connection event is an opening.
   */
  lemma TimerDecides(actions: seq<Action>)
    requires IsRun(INITIAL, actions)
    ensures var s := After(INITIAL, actions);
            && (s.timer == Checking && !IsDestroying(s.main) && !IsDestroying(s.second) ==>
                  DoTick(s).timer == if WasFinal(s.f.trace) then Left else Sleeping)
            && (s.timer == TestingAck ==> DoTick(s).timer == if IsAcked(s.f.trace) then TestingOpen else Reconnecting)
            && (s.timer == TestingOpen ==> DoTick(s).timer == if IsConnected(s.f.trace) then Clearing else Checking)
  {
    RunKeepsFlags(INITIAL, actions);
  }

  lemma {:induction false} NoBeatsWhile(s: System, actions: seq<Action>)
    requires s.timer == Reconnecting && TimerInv(s) && IsRun(s, actions)
    ensures TimerBeats(After(s, actions).f.trace) == TimerBeats(s.f.trace)
    decreases |actions|
  {
    if actions != [] {
      StepKeepsTimerInv(s, actions[0]);
      match actions[0] {
        case Start(l, c) => BeginBeats(s.f, c);
        case Continue(l) => ProceedBeats(s.f, PcOf(s, l));
        case Tick => NothingAfter(Do(s, Tick), actions[1..]);
      }
      if actions[0] != Tick {
        NoBeatsWhile(Do(s, actions[0]), actions[1..]);
      }
    }
  }

  lemma NothingAfter(s: System, actions: seq<Action>)
    requires s.terminated && IsRun(s, actions)
    ensures actions == []
  {
  }

  /** Once the timer thread reconnects it sends no heartbeat any more, and when it comes back the process ends. */
  lemma ReconnectIsTheEnd(before: seq<Action>, after: seq<Action>)
    requires IsRun(INITIAL, before) && After(INITIAL, before).timer == Reconnecting
    requires IsRun(After(INITIAL, before), after)
    ensures var s := After(INITIAL, before);
            TimerBeats(After(s, after).f.trace) == TimerBeats(s.f.trace)
    ensures forall k :: 0 <= k < |after| && after[k] == Tick ==> k == |after| - 1
  {
    RunKeepsTimerInv(INITIAL, before);
    NoBeatsWhile(After(INITIAL, before), after);
    TickIsLast(After(INITIAL, before), after);
  }

  lemma {:induction false} TickIsLast(s: System, actions: seq<Action>)
    requires s.timer == Reconnecting && TimerInv(s) && IsRun(s, actions)
    ensures forall k :: 0 <= k < |actions| && actions[k] == Tick ==> k == |actions| - 1
    decreases |actions|
  {
    if actions != [] {
      StepKeepsTimerInv(s, actions[0]);
      if actions[0] == Tick {
        NothingAfter(Do(s, Tick), actions[1..]);
      } else {
        TickIsLast(Do(s, actions[0]), actions[1..]);
        forall k | 0 <= k < |actions| && actions[k] == Tick ensures k == |actions| - 1 {
          assert k > 0 && actions[1..][k - 1] == Tick;
        }
      }
    }
  }
}
