/**
 Runs, action by action: two in which a HELLO resumes a session that cannot be resumed, and one in which the
 number -1 is sent.
 */
module WrongRuns {
  import opened Gateway
  import opened Sessions
  import opened Wrappers

  /** The actions can be taken one after the other from `s`, and lead to `t`. */
  predicate Leads(s: System, actions: seq<Action>, t: System) {
    IsRun(s, actions) && After(s, actions) == t
  }

  lemma {:induction false} LeadsConcat(s: System, first: seq<Action>, m: System, second: seq<Action>, t: System)
    requires Leads(s, first, m) && Leads(m, second, t)
    ensures Leads(s, first + second, t)
    decreases |first|
  {
    if first == [] {
      assert first + second == second;
    } else {
      LeadsConcat(Do(s, first[0]), first[1..], m, second, t);
      assert (first + second)[1..] == first[1..] + second;
    }
  }

  lemma LeadsOne(m: System, a: Action)
    requires Enabled(m, a)
    ensures Leads(m, [a], Do(m, a))
  {
    var rest := [a][1..];
    assert rest == [] && IsRun(Do(m, a), rest) && After(Do(m, a), rest) == Do(m, a);
  }

  /** One more of the actions listed. */
  lemma LeadsNext(s: System, actions: seq<Action>, i: nat, m: System, t: System)
    requires i < |actions| && Leads(s, actions[..i], m) && Enabled(m, actions[i]) && Do(m, actions[i]) == t
    ensures Leads(s, actions[..i + 1], t)
  {
    LeadsOne(m, actions[i]);
    LeadsConcat(s, actions[..i], m, [actions[i]], t);
    assert actions[..i + 1] == actions[..i] + [actions[i]];
  }

  /** The same for the next piece of a callback in loop `l`. */
  lemma LeadsPiece(s: System, actions: seq<Action>, i: nat, l: Loop, m: System, t: System)
    requires i < |actions| && Leads(s, actions[..i], m) && !m.terminated && actions[i] == Continue(l)
    requires PcOf(m, l) != Idle && PcOf(m, l) != MustSpawn
    requires var (g, next) := Proceed(m.f, PcOf(m, l)); t == MoveLoop(m, l, g, next)
    ensures Leads(s, actions[..i + 1], t)
  {
    LeadsNext(s, actions, i, m, t);
  }

  /** The same for a callback that starts in loop `l`. */
  lemma LeadsStart(s: System, actions: seq<Action>, i: nat, l: Loop, c: Callback, m: System, t: System)
    requires i < |actions| && Leads(s, actions[..i], m) && !m.terminated && actions[i] == Start(l, c)
    requires PcOf(m, l) == Idle && (l == TimerLoop ==> m.timer == Reconnecting)
    requires var (g, next) := Begin(m.f, c); t == MoveLoop(m, l, g, next)
    ensures Leads(s, actions[..i + 1], t)
  {
    LeadsNext(s, actions, i, m, t);
  }

  // --------------------------------------------------------------------------
  // Up to two event loops
  // --------------------------------------------------------------------------

  const MAIN: Action := Continue(MainLoop)
  const TIMER: Action := Continue(TimerLoop)

  /** The connection opens, the first HELLO identifies and starts the timer thread. */
  const BOOT: seq<Action> := [Start(MainLoop, Opened), Start(MainLoop, Hello), MAIN, MAIN, MAIN, MAIN, MAIN, MAIN, MAIN]

  /** One heartbeat goes out, is not acknowledged, and the timer thread reconnects. */
  const NO_ACK: seq<Action> := [Tick, Tick, Tick, Tick, Tick, Tick, Tick, Tick, Tick]

  const BOOTED: Fields :=
    Fields("", -1, true, true, true, true,
           [Received(Opened), Received(Hello), SentIdentify, AckedSet(10), TimerStarted])

  const RECONNECTED: Fields :=
    Fields("", -1, true, false, true, true,
           [Received(Opened), Received(Hello), SentIdentify, AckedSet(10), TimerStarted,
            AckedCleared, SentHeartbeat(true, None)])

  lemma BootLeads()
    ensures Leads(INITIAL, BOOT, System(BOOTED, Idle, Idle, Checking, false))
  {
    var f0 := Log(NEW_CONNECTION, Received(Opened)).(open := true);
    var f1 := Log(f0, Received(Hello));
    var f2 := Log(f1, SentIdentify);
    assert BOOT[..0] == [];
    var s := System(f0, Idle, Idle, Off, false);
    LeadsStart(INITIAL, BOOT, 0, MainLoop, Opened, INITIAL, s);
    LeadsStart(INITIAL, BOOT, 1, MainLoop, Hello, s, s.(f := f1, main := MustClearSeq));
    LeadsPiece(INITIAL, BOOT, 2, MainLoop, s.(f := f1, main := MustClearSeq), s.(f := f1, main := MustClearSession));
    LeadsPiece(INITIAL, BOOT, 3, MainLoop, s.(f := f1, main := MustClearSession), s.(f := f1, main := MustIdentify));
    LeadsPiece(INITIAL, BOOT, 4, MainLoop, s.(f := f1, main := MustIdentify), s.(f := f2, main := Greeted));
    TimerStarts(s.(f := f2, main := Greeted));
  }

  lemma TimerStarts(s: System)
    requires Leads(INITIAL, BOOT[..5], s) && s.main == Greeted && s.second == Idle && s.timer == Off && !s.terminated
    requires s.f == Fields("", -1, true, true, false, true, [Received(Opened), Received(Hello), SentIdentify])
    ensures Leads(INITIAL, BOOT, System(BOOTED, Idle, Idle, Checking, false))
  {
    var f3 := Log(s.f, AckedSet(10));
    var f4 := f3.(heartbeatStarted := true);
    LeadsPiece(INITIAL, BOOT, 5, MainLoop, s, s.(f := f3, main := AckStored));
    LeadsPiece(INITIAL, BOOT, 6, MainLoop, s.(f := f3, main := AckStored), s.(f := f3, main := MustStart));
    LeadsPiece(INITIAL, BOOT, 7, MainLoop, s.(f := f3, main := MustStart), s.(f := f4, main := MustSpawn));
    LeadsNext(INITIAL, BOOT, 8, s.(f := f4, main := MustSpawn), System(BOOTED, Idle, Idle, Checking, false));
    assert BOOT[..9] == BOOT;
  }

  lemma NoAckLeads()
    ensures Leads(System(BOOTED, Idle, Idle, Checking, false), NO_ACK, System(RECONNECTED, Idle, Idle, Reconnecting, false))
  {
    var s, f := System(BOOTED, Idle, Idle, Checking, false), RECONNECTED;
    var g := BOOTED.(acked := false, trace := BOOTED.trace + [AckedCleared]);
    assert NO_ACK[..0] == [];
    LeadsNext(s, NO_ACK, 0, s, s.(timer := Sleeping));
    LeadsNext(s, NO_ACK, 1, s.(timer := Sleeping), s.(timer := TestingAck));
    LeadsNext(s, NO_ACK, 2, s.(timer := TestingAck), s.(timer := TestingOpen));
    LeadsNext(s, NO_ACK, 3, s.(timer := TestingOpen), s.(timer := Clearing));
    LeadsNext(s, NO_ACK, 4, s.(timer := Clearing), s.(f := g, timer := Beating));
    LeadsNext(s, NO_ACK, 5, s.(f := g, timer := Beating), s.(f := f));
    LeadsNext(s, NO_ACK, 6, s.(f := f), s.(f := f, timer := Sleeping));
    LeadsNext(s, NO_ACK, 7, s.(f := f, timer := Sleeping), s.(f := f, timer := TestingAck));
    LeadsNext(s, NO_ACK, 8, s.(f := f, timer := TestingAck), s.(f := f, timer := Reconnecting));
    assert NO_ACK[..9] == NO_ACK;
  }

  const TWO_LOOPS: System := System(RECONNECTED, Idle, Idle, Reconnecting, false)

  lemma TwoLoopsLead()
    ensures Leads(INITIAL, BOOT + NO_ACK, TWO_LOOPS)
  {
    BootLeads();
    NoAckLeads();
    LeadsConcat(INITIAL, BOOT, System(BOOTED, Idle, Idle, Checking, false), NO_ACK, TWO_LOOPS);
  }

  // --------------------------------------------------------------------------
  // A reset between the two writes of a READY
  // --------------------------------------------------------------------------

  const READY_A: Callback := Dispatch(5, Some("a"))
  const READY_B: Callback := Dispatch(1, Some("b"))

  /** The second loop handles a close 4009 between the two writes of a READY in the main one; then comes a HELLO. */
  const RESET_BETWEEN: seq<Action> :=
    [Start(MainLoop, READY_A), Start(TimerLoop, Closed(4009)), TIMER, TIMER, MAIN, Start(MainLoop, Hello), MAIN, MAIN, MAIN]

  const RESUMED_AFTER_RESET: Fields :=
    Fields("a", -1, false, false, true, true,
           RECONNECTED.trace + [Received(READY_A)] + [Received(Closed(4009))] + [Received(Hello)]
           + [SentResume(true, "a", -1)])

  lemma ResetBetweenLeads()
    ensures Leads(TWO_LOOPS, RESET_BETWEEN, System(RESUMED_AFTER_RESET, Greeted, Idle, Reconnecting, false))
  {
    var s, run := TWO_LOOPS, RESET_BETWEEN;
    var f0 := Log(RECONNECTED, Received(READY_A)).(seqNo := 5);
    var f1 := Log(f0, Received(Closed(4009))).(open := false);
    var stored := SeqStored(Some("a"));
    assert run[..0] == [];
    LeadsStart(s, run, 0, MainLoop, READY_A, s, s.(f := f0, main := stored));
    LeadsStart(s, run, 1, TimerLoop, Closed(4009), s.(f := f0, main := stored),
               s.(f := f1, main := stored, second := Closing(4009)));
    ResetWritten(f1, s.(f := f1, main := stored));
  }

  lemma ResetWritten(f: Fields, t: System)
    requires t == System(f, SeqStored(Some("a")), Idle, Reconnecting, false)
    requires Leads(TWO_LOOPS, RESET_BETWEEN[..2], t.(second := Closing(4009)))
    requires f == Fields("", 5, false, false, true, true,
                         RECONNECTED.trace + [Received(READY_A)] + [Received(Closed(4009))])
    ensures Leads(TWO_LOOPS, RESET_BETWEEN, System(RESUMED_AFTER_RESET, Greeted, Idle, Reconnecting, false))
  {
    var s, run, g := TWO_LOOPS, RESET_BETWEEN, f.(seqNo := -1);
    LeadsPiece(s, run, 2, TimerLoop, t.(second := Closing(4009)), t.(f := g, second := SeqReset));
    LeadsPiece(s, run, 3, TimerLoop, t.(f := g, second := SeqReset), t.(f := g));
    LeadsPiece(s, run, 4, MainLoop, t.(f := g), s.(f := g.(session := "a")));
    ResumedAfterReset(g.(session := "a"));
  }

  lemma ResumedAfterReset(f: Fields)
    requires Leads(TWO_LOOPS, RESET_BETWEEN[..5], TWO_LOOPS.(f := f))
    requires f == Fields("a", -1, false, false, true, true,
                         RECONNECTED.trace + [Received(READY_A)] + [Received(Closed(4009))])
    ensures Leads(TWO_LOOPS, RESET_BETWEEN, System(RESUMED_AFTER_RESET, Greeted, Idle, Reconnecting, false))
  {
    var s, run := TWO_LOOPS, RESET_BETWEEN;
    var t := s.(f := Log(f, Received(Hello)));
    LeadsStart(s, run, 5, MainLoop, Hello, s.(f := f), t.(main := MustReadSession(true)));
    LeadsPiece(s, run, 6, MainLoop, t.(main := MustReadSession(true)), t.(main := MustReadSeq(true, "a")));
    LeadsPiece(s, run, 7, MainLoop, t.(main := MustReadSeq(true, "a")), t.(main := MustResume(true, "a", -1)));
    LeadsPiece(s, run, 8, MainLoop, t.(main := MustResume(true, "a", -1)), t.(f := RESUMED_AFTER_RESET, main := Greeted));
    assert run[..9] == run;
  }

  /** The run exists; the RESUME at its end is for "a" at -1, although a close 4009 came after the last READY. */
  lemma ResumesAfterReset()
    ensures IsRun(INITIAL, BOOT + NO_ACK + RESET_BETWEEN)
    ensures var t := After(INITIAL, BOOT + NO_ACK + RESET_BETWEEN).f.trace;
            && |t| == 11 && t[7..] == [Received(READY_A), Received(Closed(4009)), Received(Hello), SentResume(true, "a", -1)]
            && EndsSession(t[8]) && !Resumable(t, 10, "a", -1)
  {
    TwoLoopsLead();
    ResetBetweenLeads();
    LeadsConcat(INITIAL, BOOT + NO_ACK, TWO_LOOPS, RESET_BETWEEN,
                System(RESUMED_AFTER_RESET, Greeted, Idle, Reconnecting, false));
    var t := RESUMED_AFTER_RESET.trace;
    assert t[7] == Received(READY_A) && t[8] == Received(Closed(4009)) && t[9] == Received(Hello);
    forall r, d ensures !ResumableFrom(t, 10, "a", -1, r, d) {
      assert IsReady(t[7]) && EndsSession(t[8]) && !IsReady(t[8]) && !IsReady(t[9]);
    }
  }

  // --------------------------------------------------------------------------
  // A READY inside a HELLO
  // --------------------------------------------------------------------------

  /** The second loop reads the session for a HELLO; the main one takes a whole READY before it reads the number. */
  const READY_BETWEEN: seq<Action> :=
    [Start(MainLoop, READY_A), MAIN, Start(TimerLoop, Hello), TIMER, Start(MainLoop, READY_B), MAIN, TIMER, TIMER]

  const RESUMED_OLD: Fields :=
    Fields("b", 1, true, false, true, true,
           RECONNECTED.trace + [Received(READY_A)] + [Received(Hello)] + [Received(READY_B)] + [SentResume(true, "a", 1)])

  lemma ReadyBetweenLeads()
    ensures Leads(TWO_LOOPS, READY_BETWEEN, System(RESUMED_OLD, Idle, Greeted, Reconnecting, false))
  {
    var s, run := TWO_LOOPS, READY_BETWEEN;
    var f0 := Log(RECONNECTED, Received(READY_A)).(seqNo := 5);
    var f1 := f0.(session := "a");
    var f2 := Log(f1, Received(Hello));
    assert run[..0] == [];
    LeadsStart(s, run, 0, MainLoop, READY_A, s, s.(f := f0, main := SeqStored(Some("a"))));
    LeadsPiece(s, run, 1, MainLoop, s.(f := f0, main := SeqStored(Some("a"))), s.(f := f1));
    LeadsStart(s, run, 2, TimerLoop, Hello, s.(f := f1), s.(f := f2, second := MustReadSession(true)));
    LeadsPiece(s, run, 3, TimerLoop, s.(f := f2, second := MustReadSession(true)),
               s.(f := f2, second := MustReadSeq(true, "a")));
    ResumedOld(f2);
  }

  lemma ResumedOld(f: Fields)
    requires Leads(TWO_LOOPS, READY_BETWEEN[..4], TWO_LOOPS.(f := f, second := MustReadSeq(true, "a")))
    requires f == Fields("a", 5, true, false, true, true, RECONNECTED.trace + [Received(READY_A)] + [Received(Hello)])
    ensures Leads(TWO_LOOPS, READY_BETWEEN, System(RESUMED_OLD, Idle, Greeted, Reconnecting, false))
  {
    var s, run := TWO_LOOPS, READY_BETWEEN;
    var read := MustReadSeq(true, "a");
    var f3 := Log(f, Received(READY_B)).(seqNo := 1);
    var t := s.(f := f3.(session := "b"));
    LeadsStart(s, run, 4, MainLoop, READY_B, s.(f := f, second := read),
               s.(f := f3, main := SeqStored(Some("b")), second := read));
    LeadsPiece(s, run, 5, MainLoop, s.(f := f3, main := SeqStored(Some("b")), second := read), t.(second := read));
    LeadsPiece(s, run, 6, TimerLoop, t.(second := read), t.(second := MustResume(true, "a", 1)));
    LeadsPiece(s, run, 7, TimerLoop, t.(second := MustResume(true, "a", 1)), t.(f := RESUMED_OLD, second := Greeted));
    assert run[..8] == run;
  }

  /** The run exists; the RESUME at its end is for "a", although the last READY was for "b". */
  lemma ResumesOldSession()
    ensures IsRun(INITIAL, BOOT + NO_ACK + READY_BETWEEN)
    ensures var t := After(INITIAL, BOOT + NO_ACK + READY_BETWEEN).f.trace;
            && |t| == 11 && t[7..] == [Received(READY_A), Received(Hello), Received(READY_B), SentResume(true, "a", 1)]
            && !Resumable(t, 10, "a", 1)
  {
    TwoLoopsLead();
    ReadyBetweenLeads();
    LeadsConcat(INITIAL, BOOT + NO_ACK, TWO_LOOPS, READY_BETWEEN, System(RESUMED_OLD, Idle, Greeted, Reconnecting, false));
    var t := RESUMED_OLD.trace;
    assert t[7] == Received(READY_A) && t[8] == Received(Hello) && t[9] == Received(READY_B);
    forall r, d ensures !ResumableFrom(t, 10, "a", 1, r, d) {
      assert IsReady(t[9]) && t[9].callback.ready == Some("b");
    }
  }

  // --------------------------------------------------------------------------
  // A reset between the test and the read of a heartbeat
  // --------------------------------------------------------------------------

  /** After a READY the timer thread tests the number; before it reads it, there is a close 4009 and a new connection. */
  const RESET_INSIDE: seq<Action> :=
    [Start(MainLoop, READY_A), MAIN, Tick, Tick, Tick, Tick, Tick, Tick,
     Start(MainLoop, Closed(4009)), MAIN, MAIN, Start(MainLoop, Opened), Tick]

  const READY_TAKEN: Fields := Fields("a", 5, true, true, true, true, BOOTED.trace + [Received(READY_A)])

  const TESTED: Fields := Fields("a", 5, true, false, true, true, READY_TAKEN.trace + [AckedCleared])

  const ERASED: Fields := Fields("", -1, false, false, true, true, TESTED.trace + [Received(Closed(4009))])

  const SENT_MINUS_ONE: Fields :=
    Fields("", -1, true, false, true, true, ERASED.trace + [Received(Opened)] + [SentHeartbeat(true, Some(-1))])

  const ONE_LOOP: System := System(BOOTED, Idle, Idle, Checking, false)

  lemma ReadyLeads()
    ensures Leads(ONE_LOOP, RESET_INSIDE[..2], ONE_LOOP.(f := READY_TAKEN))
  {
    var s, run := ONE_LOOP, RESET_INSIDE;
    var f := Log(BOOTED, Received(READY_A)).(seqNo := 5);
    assert run[..0] == [];
    LeadsStart(s, run, 0, MainLoop, READY_A, s, s.(f := f, main := SeqStored(Some("a"))));
    LeadsPiece(s, run, 1, MainLoop, s.(f := f, main := SeqStored(Some("a"))), s.(f := READY_TAKEN));
  }

  /** Six ticks, from the loop test to the heartbeat that has tested the number. */
  lemma TicksLead(s: System, run: seq<Action>, i: nat, m: System)
    requires i + 6 <= |run| && (forall k :: i <= k < i + 6 ==> run[k] == Tick) && Leads(s, run[..i], m)
    requires m.timer == Checking && !m.terminated && m.f.heartbeatOpen && m.f.acked && m.f.open && m.f.seqNo != -1
    ensures Leads(s, run[..i + 6], m.(f := Log(m.f.(acked := false), AckedCleared), timer := ReadingNumber))
  {
    var f := Log(m.f.(acked := false), AckedCleared);
    LeadsNext(s, run, i, m, m.(timer := Sleeping));
    LeadsNext(s, run, i + 1, m.(timer := Sleeping), m.(timer := TestingAck));
    LeadsNext(s, run, i + 2, m.(timer := TestingAck), m.(timer := TestingOpen));
    LeadsNext(s, run, i + 3, m.(timer := TestingOpen), m.(timer := Clearing));
    LeadsNext(s, run, i + 4, m.(timer := Clearing), m.(f := f, timer := Beating));
    LeadsNext(s, run, i + 5, m.(f := f, timer := Beating), m.(f := f, timer := ReadingNumber));
  }

  lemma TestedLeads()
    ensures Leads(ONE_LOOP, RESET_INSIDE[..8], ONE_LOOP.(f := TESTED, timer := ReadingNumber))
  {
    ReadyLeads();
    TicksLead(ONE_LOOP, RESET_INSIDE, 2, ONE_LOOP.(f := READY_TAKEN));
  }

  lemma ErasedLeads()
    ensures Leads(ONE_LOOP, RESET_INSIDE[..11], ONE_LOOP.(f := ERASED, timer := ReadingNumber))
  {
    TestedLeads();
    var s, run, t := ONE_LOOP, RESET_INSIDE, ONE_LOOP.(f := TESTED, timer := ReadingNumber);
    var f := Log(TESTED, Received(Closed(4009))).(open := false);
    var g := f.(seqNo := -1);
    LeadsStart(s, run, 8, MainLoop, Closed(4009), t, t.(f := f, main := Closing(4009)));
    LeadsPiece(s, run, 9, MainLoop, t.(f := f, main := Closing(4009)), t.(f := g, main := SeqReset));
    LeadsPiece(s, run, 10, MainLoop, t.(f := g, main := SeqReset), t.(f := ERASED));
  }

  lemma MinusOneLeads()
    ensures Leads(ONE_LOOP, RESET_INSIDE, ONE_LOOP.(f := SENT_MINUS_ONE))
  {
    ErasedLeads();
    var s, run, t := ONE_LOOP, RESET_INSIDE, ONE_LOOP.(f := ERASED, timer := ReadingNumber);
    var f := Log(ERASED, Received(Opened)).(open := true);
    LeadsStart(s, run, 11, MainLoop, Opened, t, t.(f := f));
    LeadsNext(s, run, 12, t.(f := f), s.(f := SENT_MINUS_ONE));
    assert run[..13] == run;
  }

  /** The run exists, with one event loop; the heartbeat at its end carries the number -1, not null. */
  lemma SendsMinusOne()
    ensures IsRun(INITIAL, BOOT + RESET_INSIDE)
    ensures After(INITIAL, BOOT + RESET_INSIDE).f.trace
         == BOOTED.trace + [Received(READY_A), AckedCleared, Received(Closed(4009)), Received(Opened), SentHeartbeat(true, Some(-1))]
  {
    BootLeads();
    MinusOneLeads();
    LeadsConcat(INITIAL, BOOT, ONE_LOOP, RESET_INSIDE, ONE_LOOP.(f := SENT_MINUS_ONE));
  }
}
