/**
 Resuming of a gateway `Connection`, over every run in which no callback starts while the other event
 loop still owes the session a write that clashes with it.
 */
module Sessions {
  import opened Gateway
  import opened Sequences
  import opened Wrappers

  predicate IsDispatch(e: Event) {
    e.Received? && e.callback.Dispatch?
  }

  predicate IsReady(e: Event) {
    IsDispatch(e) && e.callback.ready.Some?
  }

  predicate EndsSession(e: Event) {
    || e == SentIdentify
    || (e.Received? && e.callback.Closed? && (e.callback.code == 4003 || e.callback.code == 4007 || e.callback.code == 4009))
  }

  /**
   At event `i` the session `id` can be resumed at `seqNo`: it is that of the last READY, since when there
   was no identify and no close that resets the session, and `seqNo` is the `s` of the last dispatch.
   */
  ghost predicate Resumable(t: seq<Event>, i: nat, id: string, seqNo: int) {
    exists r, d :: ResumableFrom(t, i, id, seqNo, r, d)
  }

  ghost predicate ResumableFrom(t: seq<Event>, i: nat, id: string, seqNo: int, r: int, d: int) {
    && 0 <= r <= d < i <= |t|
    && IsReady(t[r]) && t[r].callback.ready == Some(id)
    && (forall k :: r < k < i ==> !IsReady(t[k]) && !EndsSession(t[k]))
    && IsDispatch(t[d]) && t[d].callback.s == seqNo
    && (forall k :: d < k < i ==> !IsDispatch(t[k]))
  }

  datatype Session = Session(id: string, seqNo: int)

  /** The session that can be resumed after the events, computed event by event. */
  function Live(t: seq<Event>): Option<Session> {
    if t == [] then None
    else
      var e, before := Last(t), Live(Front(t));
      if IsReady(e) then Some(Session(e.callback.ready.value, e.callback.s))
      else if IsDispatch(e) && before.Some? then Some(before.value.(seqNo := e.callback.s))
      else if EndsSession(e) then None
      else before
  }

  lemma {:induction false} LiveIsResumable(t: seq<Event>) returns (r: nat, d: nat)
    requires Live(t).Some?
    ensures ResumableFrom(t, |t|, Live(t).value.id, Live(t).value.seqNo, r, d)
  {
    var last := |t| - 1;
    if IsReady(Last(t)) {
      r, d := last, last;
    } else {
      r, d := LiveIsResumable(Front(t));
      if IsDispatch(Last(t)) {
        d := last;
      }
      forall k | r < k < |t| ensures !IsReady(t[k]) && !EndsSession(t[k]) {
        if k < last { assert Front(t)[k] == t[k]; }
      }
      forall k | d < k < |t| ensures !IsDispatch(t[k]) {
        if k < last { assert Front(t)[k] == t[k]; }
      }
    }
  }

  lemma {:induction false} LiveKeepsReady(t: seq<Event>, r: nat)
    requires r < |t| && IsReady(t[r])
    requires forall k :: r < k < |t| ==> !IsReady(t[k]) && !EndsSession(t[k])
    ensures Live(t).Some? && Some(Live(t).value.id) == t[r].callback.ready
  {
    if r < |t| - 1 {
      assert Front(t)[r] == t[r];
      assert forall k :: r < k < |t| - 1 ==> Front(t)[k] == t[k];
      LiveKeepsReady(Front(t), r);
    }
  }

  lemma {:induction false} LiveKeepsSeqNo(t: seq<Event>, d: nat)
    requires Live(t).Some? && d < |t| && IsDispatch(t[d])
    requires forall k :: d < k < |t| ==> !IsDispatch(t[k])
    ensures Live(t).value.seqNo == t[d].callback.s
  {
    if d < |t| - 1 {
      assert Front(t)[d] == t[d];
      assert forall k :: d < k < |t| - 1 ==> Front(t)[k] == t[k];
      LiveKeepsSeqNo(Front(t), d);
    }
  }

  /** The session computed event by event is the one that can be resumed, if any can. */
  lemma LiveIffResumable(t: seq<Event>, id: string, seqNo: int)
    ensures Live(t) == Some(Session(id, seqNo)) <==> Resumable(t, |t|, id, seqNo)
  {
    if Live(t) == Some(Session(id, seqNo)) {
      var r, d := LiveIsResumable(t);
    }
    if Resumable(t, |t|, id, seqNo) {
      var r, d :| ResumableFrom(t, |t|, id, seqNo, r, d);
      LiveKeepsReady(t, r);
      LiveKeepsSeqNo(t, d);
    }
  }

  /** Every RESUME sent on HELLO so far was for the session live at that time. */
  predicate HelloResumesLive(t: seq<Event>) {
    t == []
    || (&& HelloResumesLive(Front(t))
        && (Last(t).SentResume? && Last(t).onHello ==>
              Last(t).session != "" && Live(Front(t)) == Some(Session(Last(t).session, Last(t).seqNo))))
  }

  // --------------------------------------------------------------------------
  // What a callback that has begun still has to do
  // --------------------------------------------------------------------------

  /**
   What the rest of a callback will still do with the session: store an id; reset both fields, or the id
   alone; identify; or send a RESUME on HELLO, with both fields, the sequence number or nothing left to read.
   */
  datatype Debt =
    | Nothing
    | Store(id: string)
    | ResetBoth
    | ResetSession
    | Identifying
    | ReadBoth
    | ReadSeq(id: string)
    | Send(id: string, seqNo: int)

  function Owes(pc: LoopPc): Debt {
    match pc
    case SeqStored(ready) => if ready.Some? then Store(ready.value) else Nothing
    case Closing(code) => if Resets(code) then ResetBoth else Nothing
    case SeqReset => ResetSession
    case MustClearSeq => Identifying
    case MustClearSession => Identifying
    case MustIdentify => Identifying
    case MustReadSession(onHello) => if onHello then ReadBoth else Nothing
    case MustReadSeq(onHello, id) => if onHello then ReadSeq(id) else Nothing
    case MustResume(onHello, id, n) => if onHello then Send(id, n) else Nothing
    case _ => Nothing
  }

  predicate IsReset(c: Callback) {
    c.Closed? && Resets(c.code)
  }

  /** A READY for a session other than `id`. */
  predicate IsReadyOther(c: Callback, id: string) {
    c.Dispatch? && c.ready.Some? && c.ready.value != id
  }

  /**
   The starts that do harm while the other event loop is at `pc`. Before a write: a HELLO that reads too
   early; a READY or a reset that an older id will overwrite; a READY whose sequence number will be erased.
   Before an identify: a READY that it will end. Before a RESUME: whatever changes or ends the session after
   the part of it that has been read.
   */
  predicate Clash(pc: LoopPc, c: Callback) {
    match Owes(pc)
    case Nothing => false
    case Store(id) => c == Hello || (id != "" && (IsReadyOther(c, id) || IsReset(c)))
    case ResetBoth => c == Hello || (IsReadyOther(c, "") && c.s != -1)
    case ResetSession => c == Hello
    case Identifying => IsReadyOther(c, "")
    case ReadBoth => (c.Dispatch? && c.ready.Some?) || IsReset(c)
    case ReadSeq(id) => id != "" && (IsReadyOther(c, id) || IsReset(c))
    case Send(id, n) => id != "" && (IsReadyOther(c, id) || IsReset(c) || (c.Dispatch? && c.s != n))
  }

  /** The two fields, and the session that the events say can be resumed. */
  datatype Standing = Standing(id: string, seqNo: int, live: Option<Session>)

  function StandingOf(f: Fields): Standing {
    Standing(f.session, f.seqNo, Live(f.trace))
  }

  /** A RESUME sent now would be right. */
  predicate Agrees(v: Standing) {
    v.live == Some(Session(v.id, v.seqNo))
  }

  /** What another loop may still do while one is about to send a RESUME: nothing but store the same id. */
  predicate KeepsId(v: Standing, other: Debt) {
    other.Nothing? || other.ReadBoth? || other.ReadSeq? || other.Send? || other == Store(v.id)
  }

  /**
   What has to hold for the rest of a callback to do no harm: an id about to be stored is the live one, and a
   reset still to come changes nothing about it; an identify ends no session; what a RESUME has read and will
   read is the live session.
   */
  predicate Harmless(v: Standing, debt: Debt, other: Debt) {
    match debt
    case Nothing => true
    case Store(id) =>
      id != "" ==> Agrees(v.(id := id)) && !other.Identifying? && (other.ResetBoth? ==> v.seqNo == -1)
    case ResetBoth => true
    case ResetSession => true
    case Identifying => v.id == ""
    case ReadBoth => v.id != "" && Agrees(v) && KeepsId(v, other)
    case ReadSeq(id) => v.id == id != "" && Agrees(v) && KeepsId(v, other)
    case Send(id, n) => v.id == id != "" && v.seqNo == n && Agrees(v) && KeepsId(v, other)
  }

  /** The fields agree with the events, but for what the two event loops will still do. */
  predicate Sound(v: Standing, debt: Debt, other: Debt) {
    && Harmless(v, debt, other)
    && Harmless(v, other, debt)
    && (debt.Nothing? && other.Nothing? && v.id != "" ==> Agrees(v))
  }

  predicate SessionOk(f: Fields, pc: LoopPc, other: LoopPc) {
    HelloResumesLive(f.trace) && Sound(StandingOf(f), Owes(pc), Owes(other))
  }

  // --------------------------------------------------------------------------
  // What each piece does
  // --------------------------------------------------------------------------

  function AfterStart(v: Standing, c: Callback): Standing {
    match c
    case Dispatch(s, ready) =>
      Standing(v.id, s, if ready.Some? then Some(Session(ready.value, s))
                        else if v.live.Some? then Some(v.live.value.(seqNo := s)) else None)
    case Closed(code) => if Resets(code) then v.(live := None) else v
    case _ => v
  }

  function AfterPiece(v: Standing, pc: LoopPc): Standing {
    match pc
    case MustClearSeq => v.(seqNo := -1)
    case MustClearSession => v.(id := "")
    case MustIdentify => v.(live := None)
    case SeqStored(ready) => if ready.Some? then v.(id := ready.value) else v
    case Closing(code) => if Resets(code) then v.(seqNo := -1) else v
    case SeqReset => v.(id := "")
    case _ => v
  }

  lemma LogLive(f: Fields, e: Event)
    ensures !IsDispatch(e) && !EndsSession(e) ==> Live(Log(f, e).trace) == Live(f.trace)
    ensures IsReady(e) ==> Live(Log(f, e).trace) == Some(Session(e.callback.ready.value, e.callback.s))
    ensures IsDispatch(e) && !IsReady(e) ==>
              Live(Log(f, e).trace)
              == if Live(f.trace).Some? then Some(Live(f.trace).value.(seqNo := e.callback.s)) else None
    ensures EndsSession(e) ==> Live(Log(f, e).trace) == None
    ensures HelloResumesLive(Log(f, e).trace)
       <==> HelloResumesLive(f.trace)
            && (e.SentResume? && e.onHello ==> e.session != "" && Live(f.trace) == Some(Session(e.session, e.seqNo)))
  {
    Snoc(f.trace, e);
  }

  /** An event that is neither a dispatch, nor the end of a session, nor a RESUME on HELLO. */
  lemma NeutralEvent(f: Fields, g: Fields, e: Event)
    requires !IsDispatch(e) && !EndsSession(e) && !(e.SentResume? && e.onHello)
    requires g.trace == f.trace + [e] && g.session == f.session && g.seqNo == f.seqNo
    ensures StandingOf(g) == StandingOf(f) && HelloResumesLive(g.trace) == HelloResumesLive(f.trace)
  {
    LogLive(f, e);
  }

  lemma StartStanding(f: Fields, c: Callback)
    ensures StandingOf(Begin(f, c).0) == AfterStart(StandingOf(f), c)
    ensures HelloResumesLive(Begin(f, c).0.trace) == HelloResumesLive(f.trace)
  {
    var g, h := Log(f, Received(c)), Begin(f, c).0;
    LogLive(f, Received(c));
    match c
    case Ack => NeutralEvent(g, h, AckedSet(11));
    case _ =>
  }

  lemma PieceStanding(f: Fields, pc: LoopPc)
    ensures StandingOf(Proceed(f, pc).0) == AfterPiece(StandingOf(f), pc)
    ensures (&& HelloResumesLive(f.trace)
             && (Owes(pc).Send? ==> pc.id != "" && Live(f.trace) == Some(Session(pc.id, pc.seqNo)))) ==>
              HelloResumesLive(Proceed(f, pc).0.trace)
  {
    var g := Proceed(f, pc).0;
    match pc
    case MustResume(h, id, n) => LogLive(f, SentResume(h, id, n));
    case MustIdentify => LogLive(f, SentIdentify);
    case Greeted => NeutralEvent(f, g, AckedSet(10));
    case MustTestNumber => if f.seqNo == -1 { NeutralEvent(f, g, SentHeartbeat(false, None)); }
    case MustReadNumber => NeutralEvent(f, g, SentHeartbeat(false, Some(f.seqNo)));
    case MustSpawn => NeutralEvent(f, g, TimerStarted);
    case _ =>
  }

  // --------------------------------------------------------------------------
  // Every piece keeps the fields sound
  // --------------------------------------------------------------------------

  /** What a callback owes after its first piece. */
  function StartDebt(v: Standing, c: Callback): Debt {
    match c
    case Hello => if v.id != "" then ReadBoth else Identifying
    case Dispatch(_, ready) => if ready.Some? then Store(ready.value) else Nothing
    case Closed(code) => if Resets(code) then ResetBoth else Nothing
    case _ => Nothing
  }

  lemma StartKeepsSound(v: Standing, c: Callback, other: LoopPc)
    requires Sound(v, Nothing, Owes(other)) && !Clash(other, c)
    ensures Sound(AfterStart(v, c), StartDebt(v, c), Owes(other))
  {
  }

  lemma StartOwes(f: Fields, c: Callback)
    ensures Owes(Begin(f, c).1) == StartDebt(StandingOf(f), c)
  {
  }

  /** The debts and the standing decide. */
  lemma SoundAfter(g: Fields, next: LoopPc, other: LoopPc, v: Standing, debt: Debt)
    requires HelloResumesLive(g.trace) && StandingOf(g) == v && Owes(next) == debt && Sound(v, debt, Owes(other))
    ensures SessionOk(g, next, other)
  {
  }

  lemma BeginKeepsSession(f: Fields, c: Callback, other: LoopPc)
    requires SessionOk(f, Idle, other) && !Clash(other, c)
    ensures SessionOk(Begin(f, c).0, Begin(f, c).1, other)
  {
    var v := StandingOf(f);
    StartStanding(f, c);
    StartOwes(f, c);
    StartKeepsSound(v, c, other);
    SoundAfter(Begin(f, c).0, Begin(f, c).1, other, AfterStart(v, c), StartDebt(v, c));
  }

  /** What a callback owes after the next piece. */
  function NextDebt(v: Standing, pc: LoopPc): Debt {
    match Owes(pc)
    case ResetBoth => ResetSession
    case Identifying => if pc == MustIdentify then Nothing else Identifying
    case ReadBoth => ReadSeq(v.id)
    case ReadSeq(id) => Send(id, v.seqNo)
    case _ => Nothing
  }

  lemma PieceKeepsSound(v: Standing, pc: LoopPc, other: Debt)
    requires Sound(v, Owes(pc), other)
    ensures Sound(AfterPiece(v, pc), NextDebt(v, pc), other)
    ensures Owes(pc).Send? ==> pc.id != "" && v.live == Some(Session(pc.id, pc.seqNo))
  {
  }

  lemma NextOwes(f: Fields, pc: LoopPc)
    ensures Owes(Proceed(f, pc).1) == NextDebt(StandingOf(f), pc)
  {
  }

  lemma ProceedKeepsSession(f: Fields, pc: LoopPc, other: LoopPc)
    requires SessionOk(f, pc, other)
    ensures SessionOk(Proceed(f, pc).0, Proceed(f, pc).1, other)
  {
    var v := StandingOf(f);
    PieceKeepsSound(v, pc, Owes(other));
    PieceStanding(f, pc);
    NextOwes(f, pc);
    SoundAfter(Proceed(f, pc).0, Proceed(f, pc).1, other, AfterPiece(v, pc), NextDebt(v, pc));
  }

  lemma TickKeepsSession(s: System)
    requires SessionOk(s.f, s.main, s.second)
    ensures SessionOk(DoTick(s).f, s.main, s.second)
  {
    match s.timer
    case Clearing => NeutralEvent(s.f, DoTick(s).f, AckedCleared);
    case Beating => if s.f.seqNo == -1 { NeutralEvent(s.f, DoTick(s).f, SentHeartbeat(true, None)); }
    case ReadingNumber => NeutralEvent(s.f, DoTick(s).f, SentHeartbeat(true, Some(s.f.seqNo)));
    case _ =>
  }

  /** Which callbacks may start while the other event loop is at some place: a discipline such as a lock. */
  type Discipline = (LoopPc, Callback) -> bool

  predicate Permitted(s: System, a: Action, may: Discipline) {
    Enabled(s, a) && (a.Start? ==> may(PcOf(s, Other(a.loop)), a.callback))
  }

  predicate IsRunUnder(s: System, actions: seq<Action>, may: Discipline)
    decreases |actions|
  {
    actions == [] || (Permitted(s, actions[0], may) && IsRunUnder(Do(s, actions[0]), actions[1..], may))
  }

  lemma {:induction false} HarmlessRunKeepsSession(s: System, actions: seq<Action>, may: Discipline)
    requires SessionOk(s.f, s.main, s.second) && IsRunUnder(s, actions, may)
    requires forall pc, c :: may(pc, c) ==> !Clash(pc, c)
    ensures var t := After(s, actions); SessionOk(t.f, t.main, t.second)
    decreases |actions|
  {
    if actions != [] {
      var a := actions[0];
      match a {
        case Start(l, c) => BeginKeepsSession(s.f, c, PcOf(s, Other(l)));
        case Continue(l) => ProceedKeepsSession(s.f, PcOf(s, l), PcOf(s, Other(l)));
        case Tick => TickKeepsSession(s);
      }
      HarmlessRunKeepsSession(Do(s, a), actions[1..], may);
    }
  }

  lemma {:induction false} ResumableFromPrefix(t: seq<Event>, i: int, id: string, seqNo: int, r: int, d: int)
    requires 0 <= i <= |t|
    ensures ResumableFrom(t[..i], i, id, seqNo, r, d) <==> ResumableFrom(t, i, id, seqNo, r, d)
  {
    forall k | 0 <= k < i ensures t[..i][k] == t[k] {
    }
  }

  lemma {:induction false} HelloResumesPrefix(t: seq<Event>, i: nat)
    requires HelloResumesLive(t) && i < |t| && t[i].SentResume? && t[i].onHello
    ensures t[i].session != "" && Live(t[..i]) == Some(Session(t[i].session, t[i].seqNo))
  {
    if i < |t| - 1 {
      assert Front(t)[i] == t[i] && Front(t)[..i] == t[..i];
      HelloResumesPrefix(Front(t), i);
    }
  }

  /** Each RESUME sent on HELLO is for a non-empty session that can be resumed at its sequence number. */
  ghost predicate ResumesRightly(t: seq<Event>) {
    forall i :: 0 <= i < |t| && t[i].SentResume? && t[i].onHello ==>
      t[i].session != "" && Resumable(t, i, t[i].session, t[i].seqNo)
  }

  /**
   Resume correctness for every run of a new connection under a discipline without clashes, the timer
   thread getting in anywhere.
   */
  lemma ResumeCorrectness(actions: seq<Action>, may: Discipline)
    requires IsRunUnder(INITIAL, actions, may)
    requires forall pc, c :: may(pc, c) ==> !Clash(pc, c)
    ensures ResumesRightly(After(INITIAL, actions).f.trace)
  {
    HarmlessRunKeepsSession(INITIAL, actions, may);
    var t := After(INITIAL, actions).f.trace;
    forall i | 0 <= i < |t| && t[i].SentResume? && t[i].onHello
      ensures t[i].session != "" && Resumable(t, i, t[i].session, t[i].seqNo)
    {
      HelloResumesPrefix(t, i);
      var r, d := LiveIsResumable(t[..i]);
      ResumableFromPrefix(t, i, t[i].session, t[i].seqNo, r, d);
    }
  }
}
