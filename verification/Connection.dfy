/** The callbacks of a gateway `Connection` as the methods they are, and what their runs keep. */
module Connections {
  import opened Gateway
  import opened Heartbeats
  import opened Sessions
  import opened Wrappers

  // --------------------------------------------------------------------------
  // A callback without interruption is a run
  // --------------------------------------------------------------------------

  /** The pieces of the main loop's callback from `pc` on. */
  function Pieces(f: Fields, pc: LoopPc): seq<Action>
    decreases Rank(pc)
  {
    if pc == Idle then []
    else [Continue(MainLoop)] + Pieces(Proceed(f, pc).0, Proceed(f, pc).1)
  }

  /** The actions of one callback of the main loop. */
  function Alone(f: Fields, c: Callback): seq<Action> {
    [Start(MainLoop, c)] + Pieces(Begin(f, c).0, Begin(f, c).1)
  }

  function AllAlone(f: Fields, cs: seq<Callback>): seq<Action>
    decreases |cs|
  {
    if cs == [] then [] else Alone(f, cs[0]) + AllAlone(Handle(f, cs[0]), cs[1..])
  }

  /** Callbacks handled one after the other. */
  function HandleAll(f: Fields, cs: seq<Callback>): Fields
    decreases |cs|
  {
    if cs == [] then f else HandleAll(Handle(f, cs[0]), cs[1..])
  }

  /** The fields are `f`, and neither loop is inside a callback. */
  predicate AtRest(s: System, f: Fields) {
    s.f == f && s.main == Idle && s.second == Idle && !s.terminated
  }

  lemma {:induction false} PiecesFinish(s: System, may: Discipline)
    requires s.second == Idle && !s.terminated
    ensures IsRunUnder(s, Pieces(s.f, s.main), may)
    ensures AtRest(After(s, Pieces(s.f, s.main)), Finish(s.f, s.main))
    decreases Rank(s.main)
  {
    if s.main != Idle {
      var t := Do(s, Continue(MainLoop));
      var rest := Pieces(Proceed(s.f, s.main).0, Proceed(s.f, s.main).1);
      PiecesFinish(t, may);
      assert ([Continue(MainLoop)] + rest)[1..] == rest;
    }
  }

  /** A callback started and carried on without interruption does what its method does. */
  lemma AloneIsHandle(s: System, f: Fields, c: Callback, may: Discipline)
    requires AtRest(s, f) && may(Idle, c)
    ensures IsRunUnder(s, Alone(f, c), may)
    ensures AtRest(After(s, Alone(f, c)), Handle(f, c))
  {
    var t := Do(s, Start(MainLoop, c));
    var rest := Pieces(Begin(f, c).0, Begin(f, c).1);
    PiecesFinish(t, may);
    assert ([Start(MainLoop, c)] + rest)[1..] == rest;
  }

  lemma {:induction false} RunsInARow(s: System, first: seq<Action>, second: seq<Action>, may: Discipline)
    requires IsRunUnder(s, first, may) && IsRunUnder(After(s, first), second, may)
    ensures IsRunUnder(s, first + second, may)
    ensures After(s, first + second) == After(After(s, first), second)
    decreases |first|
  {
    if first == [] {
      assert first + second == second;
    } else {
      RunsInARow(Do(s, first[0]), first[1..], second, may);
      assert (first + second)[1..] == first[1..] + second;
    }
  }

  lemma {:induction false} AllAloneIsHandleAll(s: System, f: Fields, cs: seq<Callback>, may: Discipline)
    requires AtRest(s, f) && forall c :: may(Idle, c)
    ensures IsRunUnder(s, AllAlone(f, cs), may)
    ensures AtRest(After(s, AllAlone(f, cs)), HandleAll(f, cs))
    decreases |cs|
  {
    if cs != [] {
      AloneIsHandle(s, f, cs[0], may);
      var t := After(s, Alone(f, cs[0]));
      AllAloneIsHandleAll(t, Handle(f, cs[0]), cs[1..], may);
      RunsInARow(s, Alone(f, cs[0]), AllAlone(Handle(f, cs[0]), cs[1..]), may);
    }
  }

  lemma {:induction false} UnderIsRun(s: System, actions: seq<Action>, may: Discipline)
    requires IsRunUnder(s, actions, may)
    ensures IsRun(s, actions)
    decreases |actions|
  {
    if actions != [] {
      UnderIsRun(Do(s, actions[0]), actions[1..], may);
    }
  }

  /** What holds of every run holds of a connection that handles its callbacks one after the other. */
  lemma SerialConnectionIsRight(cs: seq<Callback>, t: seq<Event>)
    requires t == HandleAll(NEW_CONNECTION, cs).trace
    ensures ResumesRightly(t) && StartsOnce(t)
  {
    var alone: Discipline := (pc, c) => pc == Idle;
    var actions := AllAlone(NEW_CONNECTION, cs);
    AllAloneIsHandleAll(INITIAL, NEW_CONNECTION, cs, alone);
    assert After(INITIAL, actions).f.trace == t;
    ResumeCorrectness(actions, alone);
    UnderIsRun(INITIAL, actions, alone);
    OneTimerThread(actions);
  }

  class Connection {
    var session: string
    var seqNo: int
    var open: bool
    var acked: bool
    var heartbeatStarted: bool
    var heartbeatOpen: bool
    ghost var trace: seq<Event>

    ghost function State(): Fields
      reads this
    {
      Fields(session, seqNo, open, acked, heartbeatStarted, heartbeatOpen, trace)
    }

    constructor ()
      ensures State() == NEW_CONNECTION
    {
      session, seqNo, open, acked, heartbeatStarted, heartbeatOpen := "", -1, false, true, false, true;
      trace := [];
    }

    method SendIdentify()
      modifies this
      ensures State() == Identify(old(State()))
    {
      seqNo := -1;
      session := "";
      trace := trace + [SentIdentify];
    }

    method SendResume(ghost onHello: bool)
      modifies this
      ensures State() == Resume(old(State()), onHello)
    {
      trace := trace + [SentResume(onHello, session, seqNo)];
    }

    method SendHeartbeat()
      modifies this
      ensures State() == Heartbeat(old(State()), false)
    {
      if seqNo == -1 {
        trace := trace + [SentHeartbeat(false, None)];
      } else {
        trace := trace + [SentHeartbeat(false, Some(seqNo))];
      }
    }

    method OnError()
      modifies this
      ensures State() == Handle(old(State()), Failed)
    {
      trace := trace + [Received(Failed)];
      open := false;
    }

    method OnConnection()
      modifies this
      ensures State() == Handle(old(State()), Opened)
    {
      trace := trace + [Received(Opened)];
      open := true;
    }

    method OnDisconnection(code: int)
      modifies this
      ensures State() == Handle(old(State()), Closed(code))
    {
      trace := trace + [Received(Closed(code))];
      open := false;
      if code == 4004 || code == 4010 || code == 4011 {
        FinishOne(State(), Closing(code));
        heartbeatOpen := false;
        return;
      }
      if code == 4003 || code == 4007 || code == 4009 {
        FinishReset(State(), code);
        seqNo := -1;
        session := "";
      } else {
        FinishOne(State(), Closing(code));
      }
    }

    /** The branch of `onMessage` for op 10. */
    method OnHello()
      modifies this
      ensures State() == Handle(old(State()), Hello)
    {
      trace := trace + [Received(Hello)];
      if |session| > 0 {
        FinishResume(State(), true);
        SendResume(true);
      } else {
        FinishIdentify(State());
        SendIdentify();
      }
      Greet();
    }

    /** The rest of that branch: `acked`, then the timer thread or a heartbeat. */
    method Greet()
      modifies this
      ensures State() == Finish(old(State()), Greeted)
    {
      FinishGreeted(State());
      acked := true;
      trace := trace + [AckedSet(10)];
      if !heartbeatStarted {
        heartbeatStarted := true;
        trace := trace + [TimerStarted];
      } else {
        SendHeartbeat();
      }
    }

    /** `onMessage`; the reconnects in it write no field. */
    method OnMessage(message: Callback)
      requires !message.Failed? && !message.Opened? && !message.Closed?
      modifies this
      ensures State() == Handle(old(State()), message)
    {
      if message == Hello {
        OnHello();
        return;
      }
      trace := trace + [Received(message)];
      match message {
        case Dispatch(s, ready) =>
          seqNo := s;
          FinishOne(State(), SeqStored(ready));
          if ready.Some? {
            session := ready.value;
          }
        case Ack =>
          acked := true;
          trace := trace + [AckedSet(11)];
        case InvalidSession(d) =>
          if d {
            FinishResume(State(), false);
            SendResume(false);
          }
        case HeartbeatRequest =>
          FinishHeartbeat(State());
          SendHeartbeat();
        case _ =>
      }
    }

    /** What the hub does with one callback. */
    method On(c: Callback)
      modifies this
      ensures State() == Handle(old(State()), c)
    {
      match c {
        case Failed => OnError();
        case Opened => OnConnection();
        case Closed(code) => OnDisconnection(code);
        case _ => OnMessage(c);
      }
    }

    /**
     A new connection handling callbacks one after the other, any number of HELLOs, dispatches and closes
     among them: each RESUME on HELLO is right, and the timer thread is started once at most.
     */
    method OnAll(cs: seq<Callback>)
      requires State() == NEW_CONNECTION
      modifies this
      ensures State() == HandleAll(NEW_CONNECTION, cs)
      ensures ResumesRightly(trace) && StartsOnce(trace)
    {
      SerialConnectionIsRight(cs, HandleAll(NEW_CONNECTION, cs).trace);
      var i := 0;
      assert cs[0..] == cs;
      while i < |cs|
        invariant 0 <= i <= |cs|
        invariant HandleAll(State(), cs[i..]) == HandleAll(NEW_CONNECTION, cs)
      {
        On(cs[i]);
        assert cs[i..][1..] == cs[i + 1..];
        i := i + 1;
      }
      assert State() == HandleAll(NEW_CONNECTION, cs);
    }
  }

  /** The end of a HELLO: `acked`, then the timer thread or a heartbeat. */
  lemma FinishGreeted(f: Fields)
    ensures var g := Log(f.(acked := true), AckedSet(10));
            Finish(f, Greeted)
            == if g.heartbeatStarted then Heartbeat(g, false) else Log(g.(heartbeatStarted := true), TimerStarted)
  {
    var g := Log(f.(acked := true), AckedSet(10));
    assert Finish(f, Greeted) == Finish(g, AckStored);
    if g.heartbeatStarted {
      assert Finish(g, AckStored) == Finish(g, MustTestNumber);
      FinishHeartbeat(g);
    } else {
      assert Finish(g, AckStored) == Finish(g, MustStart);
      assert Finish(g, MustStart) == Finish(g.(heartbeatStarted := true), MustSpawn);
      FinishOne(g.(heartbeatStarted := true), MustSpawn);
    }
  }
}
