/**
 What a connection that handles its callbacks one after the other sends in answer to each, as a function of the
 events so far and of nothing else.
 */
module Answers {
  import opened Beats
  import opened Connections
  import opened Flags
  import opened Gateway
  import opened Sequences
  import opened Sessions
  import opened Wrappers

  /** The id of the session that can be resumed, empty if there is none. */
  function SessionId(t: seq<Event>): string {
    if Live(t).Some? then Live(t).value.id else ""
  }

  /** A heartbeat carries the number, or null for -1. */
  function Carried(n: int): Option<int> {
    if n == -1 then None else Some(n)
  }

  /** What is sent and done in answer to a callback, after the events `t`. */
  function Answer(t: seq<Event>, c: Callback): seq<Event> {
    match c
    case Hello =>
      var resumes := SessionId(t) != "";
      var first := if resumes then SentResume(true, SessionId(t), Number(t)) else SentIdentify;
      var last := if TimerStarted in t then SentHeartbeat(false, Carried(if resumes then Number(t) else -1)) else TimerStarted;
      [first, AckedSet(10), last]
    case Ack => [AckedSet(11)]
    case InvalidSession(d) => if d then [SentResume(false, SessionId(t), Number(t))] else []
    case HeartbeatRequest => [SentHeartbeat(false, Carried(Number(t)))]
    case _ => []
  }

  /** All events, the callbacks having come in this order. */
  function History(cs: seq<Callback>): seq<Event> {
    if cs == [] then []
    else
      var before := History(Front(cs));
      before + [Received(Last(cs))] + Answer(before, Last(cs))
  }

  /** The fields say what the events say. */
  ghost predicate Reflects(f: Fields, t: seq<Event>) {
    && f.trace == t
    && f.session == SessionId(t)
    && f.seqNo == Number(t)
    && f.open == IsConnected(t)
    && (f.heartbeatStarted <==> TimerStarted in t)
    && f.heartbeatOpen == !WasFinal(t)
  }

  /** How one more event changes what the events say. */
  lemma OneMore(t: seq<Event>, e: Event)
    ensures var u := t + [e];
            && Number(u) == (if IsDispatch(e) then e.callback.s else if EndsSession(e) then -1 else Number(t))
            && SessionId(u) == (if IsReady(e) then e.callback.ready.value else if EndsSession(e) then "" else SessionId(t))
  {
    Snoc(t, e);
  }

  /** An event that says nothing about the fields. */
  predicate IsSilent(e: Event) {
    e.SentResume? || e.SentHeartbeat? || e.AckedSet? || (e.Received? && !e.callback.Dispatch? && !e.callback.Closed?
                                                         && !e.callback.Opened? && !e.callback.Failed?)
  }

  lemma SilentReflects(f: Fields, t: seq<Event>, e: Event, g: Fields)
    requires Reflects(f, t) && IsSilent(e)
    requires g == f.(acked := g.acked, trace := t + [e])
    ensures Reflects(g, t + [e])
  {
    OneMore(t, e);
    FlagsMore(t, e);
  }

  /** A callback that ends with its first piece, or has only one more. */
  lemma PlainAnswer(f: Fields, t: seq<Event>, c: Callback)
    requires Reflects(f, t) && !c.Hello? && !c.InvalidSession? && !c.Closed? && !c.Dispatch?
    ensures Reflects(Handle(f, c), t + [Received(c)] + Answer(t, c))
  {
    var g := Log(f, Received(c));
    OneMore(t, Received(c));
    FlagsMore(t, Received(c));
    assert t + [Received(c)] + [] == t + [Received(c)];
    if c.Ack? {
      SilentReflects(f, t, Received(c), g);
      SilentReflects(g, g.trace, AckedSet(11), Handle(f, c));
    } else if c.HeartbeatRequest? {
      SilentReflects(f, t, Received(c), g);
      FinishHeartbeat(g);
      SilentReflects(g, g.trace, SentHeartbeat(false, Carried(g.seqNo)), Handle(f, c));
    }
  }

  lemma DispatchAnswer(f: Fields, t: seq<Event>, c: Callback)
    requires Reflects(f, t) && c.Dispatch?
    ensures Reflects(Handle(f, c), t + [Received(c)] + Answer(t, c))
  {
    var g := Log(f, Received(c)).(seqNo := c.s);
    OneMore(t, Received(c));
    FlagsMore(t, Received(c));
    FinishOne(g, SeqStored(c.ready));
    assert t + [Received(c)] + [] == t + [Received(c)];
  }

  lemma CloseAnswer(f: Fields, t: seq<Event>, c: Callback)
    requires Reflects(f, t) && c.Closed?
    ensures Reflects(Handle(f, c), t + [Received(c)] + Answer(t, c))
  {
    var g, u := Log(f, Received(c)).(open := false), t + [Received(c)];
    OneMore(t, Received(c));
    FlagsMore(t, Received(c));
    assert u + [] == u && Handle(f, c) == Finish(g, Closing(c.code));
    if Resets(c.code) {
      FinishReset(g, c.code);
      assert Reflects(g.(seqNo := -1, session := ""), u);
    } else {
      FinishOne(g, Closing(c.code));
      assert Reflects(if Destroys(c.code) then g.(heartbeatOpen := false) else g, u);
    }
  }

  lemma InvalidAnswer(f: Fields, t: seq<Event>, c: Callback)
    requires Reflects(f, t) && c.InvalidSession?
    ensures Reflects(Handle(f, c), t + [Received(c)] + Answer(t, c))
  {
    var g := Log(f, Received(c));
    SilentReflects(f, t, Received(c), g);
    if c.d {
      FinishResume(g, false);
      SilentReflects(g, g.trace, SentResume(false, g.session, g.seqNo), Resume(g, false));
    } else {
      assert t + [Received(c)] + [] == t + [Received(c)];
    }
  }

  /** The rest of a HELLO. */
  lemma GreetAnswer(f: Fields, t: seq<Event>)
    requires Reflects(f, t)
    ensures Reflects(Finish(f, Greeted),
                     t + [AckedSet(10)] + [if TimerStarted in t then SentHeartbeat(false, Carried(f.seqNo)) else TimerStarted])
  {
    FinishGreeted(f);
    var g := Log(f.(acked := true), AckedSet(10));
    SilentReflects(f, t, AckedSet(10), g);
    if f.heartbeatStarted {
      SilentReflects(g, g.trace, SentHeartbeat(false, Carried(g.seqNo)), Heartbeat(g, false));
    } else {
      OneMore(g.trace, TimerStarted);
      FlagsMore(g.trace, TimerStarted);
    }
  }

  /** The first thing sent on HELLO. */
  lemma HelloSends(g: Fields, t: seq<Event>) returns (h: Fields, first: Event)
    requires Reflects(g, t)
    ensures first == if SessionId(t) != "" then SentResume(true, SessionId(t), Number(t)) else SentIdentify
    ensures Reflects(h, t + [first])
    ensures Finish(g, if g.session != "" then MustReadSession(true) else MustClearSeq) == Finish(h, Greeted)
    ensures h.seqNo == if SessionId(t) != "" then Number(t) else -1
  {
    if g.session != "" {
      first, h := SentResume(true, g.session, g.seqNo), Resume(g, true);
      FinishResume(g, true);
      SilentReflects(g, t, first, h);
    } else {
      first, h := SentIdentify, Identify(g);
      FinishIdentify(g);
      OneMore(t, SentIdentify);
      FlagsMore(t, SentIdentify);
    }
  }

  lemma HelloAnswer(f: Fields, t: seq<Event>)
    requires Reflects(f, t)
    ensures Reflects(Handle(f, Hello), t + [Received(Hello)] + Answer(t, Hello))
  {
    var g, u := Log(f, Received(Hello)), t + [Received(Hello)];
    SilentReflects(f, t, Received(Hello), g);
    OneMore(t, Received(Hello));
    var h, first := HelloSends(g, u);
    GreetAnswer(h, u + [first]);
    HelloInAll(t, u, first, h.seqNo);
  }

  lemma HelloInAll(t: seq<Event>, u: seq<Event>, first: Event, n: int)
    requires u == t + [Received(Hello)] && (first.SentResume? || first == SentIdentify)
    requires first == if SessionId(t) != "" then SentResume(true, SessionId(t), Number(t)) else SentIdentify
    requires n == if SessionId(t) != "" then Number(t) else -1
    ensures (u + [first]) + [AckedSet(10)] + [if TimerStarted in u + [first] then SentHeartbeat(false, Carried(n)) else TimerStarted]
         == u + Answer(t, Hello)
  {
    assert TimerStarted in u + [first] <==> TimerStarted in t;
    var last := if TimerStarted in t then SentHeartbeat(false, Carried(n)) else TimerStarted;
    assert (u + [first]) + [AckedSet(10)] + [last] == u + [first, AckedSet(10), last];
  }

  lemma HandleAnswers(f: Fields, t: seq<Event>, c: Callback)
    requires Reflects(f, t)
    ensures Reflects(Handle(f, c), t + [Received(c)] + Answer(t, c))
  {
    match c
    case Hello => HelloAnswer(f, t);
    case InvalidSession(_) => InvalidAnswer(f, t, c);
    case Closed(_) => CloseAnswer(f, t, c);
    case Dispatch(_, _) => DispatchAnswer(f, t, c);
    case _ => PlainAnswer(f, t, c);
  }

  lemma {:induction false} HandleAllSnoc(f: Fields, cs: seq<Callback>, c: Callback)
    ensures HandleAll(f, cs + [c]) == Handle(HandleAll(f, cs), c)
    decreases |cs|
  {
    if cs == [] {
      assert [] + [c] == [c];
      assert HandleAll(Handle(f, c), [c][1..]) == Handle(f, c);
    } else {
      HandleAllSnoc(Handle(f, cs[0]), cs[1..], c);
      assert (cs + [c])[1..] == cs[1..] + [c];
    }
  }

  /** A new connection, whatever callbacks it handles one after the other. */
  lemma {:induction false} HistoryIsKept(cs: seq<Callback>)
    ensures Reflects(HandleAll(NEW_CONNECTION, cs), History(cs))
  {
    if cs != [] {
      HistoryIsKept(Front(cs));
      FrontLast(cs);
      HandleAllSnoc(NEW_CONNECTION, Front(cs), Last(cs));
      HandleAnswers(HandleAll(NEW_CONNECTION, Front(cs)), History(Front(cs)), Last(cs));
    }
  }
}
