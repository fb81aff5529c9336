/** The IPC server: read loops, handlers, broadcasts and teardown, one atomic step at a time. */
module Ipc {
  const BUFFER := 256

  /** A frame on a connection's channel. A response remembers which request it answers. */
  datatype Frame = Event | Response(number: nat, id: string)

  /** Where a connection's read loop and its deferred teardown stand. */
  datatype Reader =
    | Registering
    | Reading
    | LookingUp(number: nat, id: string)
    | Answering(number: nat, id: string)
    | Leaving
    | ClosingDone
    | Waiting
    | ClosingSend
    | ClosingNet
    | Gone

  /** A handler goroutine: inside the handler, in the select, past it with only the wait group to sign off. */
  datatype Stage = Running | Selecting | Finishing
  datatype Handler = Handler(id: string, stage: Stage)

  /**
   * A connection. `queue` is the buffered channel; `written` is what the writer took from it;
   * `ids` are the requests read so far, by number.
   */
  datatype Conn = Conn(
    reader: Reader,
    ids: seq<string>,
    handlers: map<nat, Handler>,
    queue: seq<Frame>,
    written: seq<Frame>,
    writing: bool,
    sendClosed: bool,
    doneClosed: bool)

  /** The server's mutex, taken step by step only by a broadcast; the other sections under it are single steps. */
  datatype Lock = Free | Broadcasting(todo: set<nat>)

  /** `fault` is a send on a closed channel or a second close: the process would panic. */
  datatype State = State(conns: map<nat, Conn>, subs: set<nat>, lock: Lock, fault: bool)

  datatype Line = BadFrame(id: string) | WrongVersion(id: string) | Request(id: string)

  /** What one connection's goroutines do. */
  datatype Act =
    | Register
    | Read(line: Line)
    | Lookup(known: bool)
    | Answer
    | Return(number: nat)
    | Reply(number: nat)
    | Abandon(number: nat)
    | SignOff(number: nat)
    | HangUp
    | Deregister
    | CloseDone
    | WaitOver
    | CloseSend
    | CloseNet
    | Take
    | WriterStops

  datatype Action = Accept(conn: nat) | OnConn(conn: nat, act: Act) | StartBroadcast | BroadcastTo(conn: nat) | EndBroadcast

  // ---------------------------------------------------------------- steps

  const FRESH := Conn(Registering, [], map[], [], [], true, false, false)

  /** A step that takes the server's mutex for one short section. */
  predicate NeedsLock(a: Act) { a.Register? || a.Lookup? || a.Deregister? }

  predicate HandlerIs(c: Conn, n: nat, stage: Stage) { n in c.handlers && c.handlers[n].stage == stage }

  /** A send can go on when there is room, or when it is about to fault. */
  predicate CanSend(c: Conn) { |c.queue| < BUFFER || c.sendClosed }

  predicate ActEnabled(c: Conn, a: Act) {
    match a
    case Register => c.reader.Registering?
    case Read(_) => c.reader.Reading?
    case Lookup(_) => c.reader.LookingUp?
    case Answer => c.reader.Answering? && CanSend(c)
    case Return(n) => HandlerIs(c, n, Running)
    case Reply(n) => HandlerIs(c, n, Selecting) && CanSend(c)
    case Abandon(n) => HandlerIs(c, n, Selecting) && c.doneClosed
    case SignOff(n) => HandlerIs(c, n, Finishing)
    case HangUp => c.reader.Reading?
    case Deregister => c.reader.Leaving?
    case CloseDone => c.reader.ClosingDone?
    case WaitOver => c.reader.Waiting? && c.handlers == map[]
    case CloseSend => c.reader.ClosingSend?
    case CloseNet => c.reader.ClosingNet?
    case Take => c.writing && c.queue != []
    case WriterStops => c.writing
  }

  /** The step would panic. */
  predicate Faults(c: Conn, a: Act) {
    match a
    case Answer => c.sendClosed
    case Reply(_) => c.sendClosed
    case CloseDone => c.doneClosed
    case CloseSend => c.sendClosed
    case _ => false
  }

  function SetStage(c: Conn, n: nat, stage: Stage): Conn
    requires n in c.handlers
  {
    c.(handlers := c.handlers[n := c.handlers[n].(stage := stage)])
  }

  function Acted(c: Conn, a: Act): Conn
    requires ActEnabled(c, a)
  {
    match a
    case Register => c.(reader := Reading)
    case Read(line) =>
      c.(ids := c.ids + [line.id],
         reader := if line.Request? then LookingUp(|c.ids|, line.id) else Answering(|c.ids|, line.id))
    case Lookup(known) =>
      var n, id := c.reader.number, c.reader.id;
      if known then c.(reader := Reading, handlers := c.handlers[n := Handler(id, Running)])
      else c.(reader := Answering(n, id))
    case Answer => c.(reader := Reading, queue := c.queue + [Response(c.reader.number, c.reader.id)])
    case Return(n) => SetStage(c, n, Selecting)
    case Reply(n) => SetStage(c, n, Finishing).(queue := c.queue + [Response(n, c.handlers[n].id)])
    case Abandon(n) => SetStage(c, n, Finishing)
    case SignOff(n) => c.(handlers := c.handlers - {n})
    case HangUp => c.(reader := Leaving)
    case Deregister => c.(reader := ClosingDone)
    case CloseDone => c.(reader := Waiting, doneClosed := true)
    case WaitOver => c.(reader := ClosingSend)
    case CloseSend => c.(reader := ClosingNet, sendClosed := true)
    case CloseNet => c.(reader := Gone)
    case Take => c.(queue := c.queue[1..], written := c.written + [c.queue[0]])
    case WriterStops => c.(writing := false)
  }

  predicate Enabled(s: State, a: Action) {
    match a
    case Accept(i) => i !in s.conns
    case OnConn(i, act) => i in s.conns && ActEnabled(s.conns[i], act) && (NeedsLock(act) ==> s.lock.Free?)
    case StartBroadcast => s.lock.Free?
    case BroadcastTo(i) => s.lock.Broadcasting? && i in s.lock.todo && i in s.conns
    case EndBroadcast => s.lock.Broadcasting? && s.lock.todo == {}
  }

  function Subscribed(subs: set<nat>, i: nat, act: Act): set<nat> {
    if act.Register? then subs + {i} else if act.Deregister? then subs - {i} else subs
  }

  function Next(s: State, a: Action): State
    requires Enabled(s, a)
  {
    match a
    case Accept(i) => s.(conns := s.conns[i := FRESH])
    case OnConn(i, act) =>
      State(s.conns[i := Acted(s.conns[i], act)], Subscribed(s.subs, i, act), s.lock,
            s.fault || Faults(s.conns[i], act))
    case StartBroadcast => s.(lock := Broadcasting(s.subs))
    case BroadcastTo(i) =>
      var c := s.conns[i];
      var left := Broadcasting(s.lock.todo - {i});
      if c.sendClosed then s.(lock := left, fault := true)
      else if |c.queue| < BUFFER then s.(lock := left, conns := s.conns[i := c.(queue := c.queue + [Event])])
      else s.(lock := left, subs := s.subs - {i})
    case EndBroadcast => s.(lock := Free)
  }

  ghost predicate IsRun(run: seq<State>, actions: seq<Action>) {
    && |run| == |actions| + 1
    && run[0] == State(map[], {}, Free, false)
    && forall i :: 0 <= i < |actions| ==> Enabled(run[i], actions[i]) && run[i + 1] == Next(run[i], actions[i])
  }

  // ---------------------------------------------------------------- the invariant of one connection

  /** Everything ever put on the channel, in order. */
  function Sent(c: Conn): seq<Frame> { c.written + c.queue }

  /** Teardown has taken the connection off the subscribers. */
  predicate IsLeft(r: Reader) { r.ClosingDone? || r.Waiting? || r.ClosingSend? || r.ClosingNet? || r.Gone? }

  /** The phases of teardown and what is true in each. */
  predicate PhaseHolds(c: Conn, subscribed: bool) {
    && (subscribed ==> !IsLeft(c.reader))
    && (c.doneClosed <==> c.reader.Waiting? || c.reader.ClosingSend? || c.reader.ClosingNet? || c.reader.Gone?)
    && (c.sendClosed <==> c.reader.ClosingNet? || c.reader.Gone?)
    && (c.reader.ClosingSend? || c.sendClosed ==> c.handlers == map[])
  }

  /** Request `n` has been read and nothing has been sent for it yet. */
  ghost predicate IsOpen(ids: seq<string>, sent: seq<Frame>, n: nat, id: string) {
    n < |ids| && ids[n] == id && forall i :: 0 <= i < |sent| && sent[i].Response? ==> sent[i].number != n
  }

  ghost predicate ReaderIsOpen(r: Reader, ids: seq<string>, sent: seq<Frame>) {
    r.LookingUp? || r.Answering? ==> IsOpen(ids, sent, r.number, r.id)
  }

  ghost predicate HandlersAreOpen(r: Reader, handlers: map<nat, Handler>, ids: seq<string>, sent: seq<Frame>) {
    && (forall n :: n in handlers ==> n < |ids| && ids[n] == handlers[n].id)
    && (forall n :: n in handlers && !handlers[n].stage.Finishing? ==> IsOpen(ids, sent, n, handlers[n].id))
    && (r.LookingUp? || r.Answering? ==> r.number !in handlers)
  }

  /** At most one response to each request, carrying that request's id. */
  ghost predicate OneResponseEach(ids: seq<string>, sent: seq<Frame>) {
    && (forall i :: 0 <= i < |sent| && sent[i].Response? ==> sent[i].number < |ids| && sent[i].id == ids[sent[i].number])
    && (forall i, j :: 0 <= i < j < |sent| && sent[i].Response? && sent[j].Response? ==> sent[i].number != sent[j].number)
  }

  ghost predicate AnswersHold(c: Conn) {
    && ReaderIsOpen(c.reader, c.ids, Sent(c))
    && HandlersAreOpen(c.reader, c.handlers, c.ids, Sent(c))
    && OneResponseEach(c.ids, Sent(c))
  }

  ghost predicate ConnHolds(c: Conn, subscribed: bool) { PhaseHolds(c, subscribed) && AnswersHold(c) && |c.queue| <= BUFFER }

  // ---------------------------------------------------------------- one connection's steps keep it

  lemma PhaseKept(c: Conn, a: Act, subscribed: bool)
    requires PhaseHolds(c, subscribed) && ActEnabled(c, a)
    ensures !Faults(c, a)
    ensures PhaseHolds(Acted(c, a), (subscribed || a.Register?) && !a.Deregister?)
  {
  }

  lemma QueueKept(c: Conn, a: Act, subscribed: bool)
    requires PhaseHolds(c, subscribed) && ActEnabled(c, a) && |c.queue| <= BUFFER
    ensures |Acted(c, a).queue| <= BUFFER
  {
  }

  lemma OpenSurvives(ids: seq<string>, sent: seq<Frame>, f: Frame, n: nat, id: string)
    requires IsOpen(ids, sent, n, id) && (f.Response? ==> f.number != n)
    ensures IsOpen(ids, sent + [f], n, id)
  {
  }

  lemma OneMoreFrame(ids: seq<string>, sent: seq<Frame>, f: Frame)
    requires OneResponseEach(ids, sent) && (f.Response? ==> IsOpen(ids, sent, f.number, f.id))
    ensures OneResponseEach(ids, sent + [f])
  {
  }

  lemma ReadKeepsAnswers(c: Conn, line: Line)
    requires AnswersHold(c) && c.reader.Reading?
    ensures AnswersHold(Acted(c, Read(line)))
  {
    var c' := Acted(c, Read(line));
    assert Sent(c') == Sent(c);
    assert forall n :: 0 <= n < |c.ids| ==> c'.ids[n] == c.ids[n];
  }

  lemma LookupKeepsAnswers(c: Conn, known: bool)
    requires AnswersHold(c) && c.reader.LookingUp?
    ensures AnswersHold(Acted(c, Lookup(known)))
  {
    assert Sent(Acted(c, Lookup(known))) == Sent(c);
    hide IsOpen, OneResponseEach;
  }

  lemma AnswerKeepsAnswers(c: Conn)
    requires AnswersHold(c) && c.reader.Answering? && CanSend(c)
    ensures AnswersHold(Acted(c, Answer))
  {
    var f := Response(c.reader.number, c.reader.id);
    assert Sent(Acted(c, Answer)) == Sent(c) + [f];
    OneMoreFrame(c.ids, Sent(c), f);
    hide OneResponseEach, IsOpen, Sent;
    forall n | n in c.handlers && !c.handlers[n].stage.Finishing?
      ensures IsOpen(c.ids, Sent(c) + [f], n, c.handlers[n].id)
    {
      OpenSurvives(c.ids, Sent(c), f, n, c.handlers[n].id);
    }
  }

  lemma ReplyKeepsAnswers(c: Conn, n: nat)
    requires AnswersHold(c) && HandlerIs(c, n, Selecting) && CanSend(c)
    ensures AnswersHold(Acted(c, Reply(n)))
  {
    var f := Response(n, c.handlers[n].id);
    var c' := Acted(c, Reply(n));
    assert Sent(c') == Sent(c) + [f];
    OneMoreFrame(c.ids, Sent(c), f);
    hide OneResponseEach, IsOpen, Sent;
    forall m | m in c'.handlers && !c'.handlers[m].stage.Finishing?
      ensures IsOpen(c.ids, Sent(c) + [f], m, c'.handlers[m].id)
    {
      OpenSurvives(c.ids, Sent(c), f, m, c.handlers[m].id);
    }
    if c.reader.LookingUp? || c.reader.Answering? {
      OpenSurvives(c.ids, Sent(c), f, c.reader.number, c.reader.id);
    }
  }

  /** The steps that put nothing on the channel and read nothing. */
  lemma QuietKeepsAnswers(c: Conn, a: Act)
    requires AnswersHold(c) && ActEnabled(c, a) && !a.Read? && !a.Lookup? && !a.Answer? && !a.Reply?
    ensures AnswersHold(Acted(c, a))
  {
    var c' := Acted(c, a);
    assert Sent(c') == Sent(c) && c'.ids == c.ids;
    hide IsOpen, OneResponseEach, Sent;
  }

  lemma ConnKept(c: Conn, a: Act, subscribed: bool)
    requires ConnHolds(c, subscribed) && ActEnabled(c, a)
    ensures !Faults(c, a)
    ensures ConnHolds(Acted(c, a), (subscribed || a.Register?) && !a.Deregister?)
  {
    PhaseKept(c, a, subscribed);
    QueueKept(c, a, subscribed);
    match a {
      case Read(line) => ReadKeepsAnswers(c, line);
      case Lookup(known) => LookupKeepsAnswers(c, known);
      case Answer => AnswerKeepsAnswers(c);
      case Reply(n) => ReplyKeepsAnswers(c, n);
      case _ => QuietKeepsAnswers(c, a);
    }
    hide AnswersHold, PhaseHolds, Acted;
  }

  lemma EventKept(c: Conn, subscribed: bool)
    requires ConnHolds(c, subscribed) && |c.queue| < BUFFER
    ensures ConnHolds(c.(queue := c.queue + [Event]), subscribed)
  {
    var c' := c.(queue := c.queue + [Event]);
    assert Sent(c') == Sent(c) + [Event];
    OneMoreFrame(c.ids, Sent(c), Event);
    hide OneResponseEach, IsOpen, Sent;
    if c.reader.LookingUp? || c.reader.Answering? {
      OpenSurvives(c.ids, Sent(c), Event, c.reader.number, c.reader.id);
    }
    forall n | n in c.handlers && !c.handlers[n].stage.Finishing?
      ensures IsOpen(c.ids, Sent(c) + [Event], n, c.handlers[n].id)
    {
      OpenSurvives(c.ids, Sent(c), Event, n, c.handlers[n].id);
    }
  }

  lemma DroppedKept(c: Conn)
    requires ConnHolds(c, true)
    ensures ConnHolds(c, false)
  {
    hide AnswersHold;
  }

  lemma FreshHolds()
    ensures ConnHolds(FRESH, false)
  {
  }

  // ---------------------------------------------------------------- the whole server

  ghost predicate EachHolds(conns: map<nat, Conn>, subs: set<nat>) {
    forall i :: i in conns ==> ConnHolds(conns[i], i in subs)
  }

  ghost predicate Holds(s: State) {
    && !s.fault
    && EachHolds(s.conns, s.subs)
    && (forall i :: i in s.subs ==> i in s.conns)
    && (s.lock.Broadcasting? ==> s.lock.todo <= s.subs)
  }

  lemma StepKept(s: State, a: Action)
    requires Holds(s) && Enabled(s, a)
    ensures Holds(Next(s, a))
  {
    match a {
      case Accept(i) => FreshHolds();
      case OnConn(i, act) => ConnKept(s.conns[i], act, i in s.subs);
      case BroadcastTo(i) =>
        assert ConnHolds(s.conns[i], true);
        if |s.conns[i].queue| < BUFFER {
          EventKept(s.conns[i], true);
        }
        DroppedKept(s.conns[i]);
        SubscriberIsOpen(s.conns[i]);
      case _ =>
    }
    hide ConnHolds, Acted, ActEnabled, Faults;
  }

  /** A subscriber's channel is never closed: deregistering comes before closing. */
  lemma SubscriberIsOpen(c: Conn)
    requires ConnHolds(c, true)
    ensures !c.sendClosed && !c.doneClosed
  {
    hide AnswersHold;
  }

  lemma {:induction false} RunsHold(run: seq<State>, actions: seq<Action>, i: nat)
    requires IsRun(run, actions) && i < |run|
    ensures Holds(run[i])
  {
    if i > 0 {
      RunsHold(run, actions, i - 1);
      hide Holds, Next, Enabled;
      assert run[i - 1 + 1] == Next(run[i - 1], actions[i - 1]);
      StepKept(run[i - 1], actions[i - 1]);
    } else {
      assert Holds(State(map[], {}, Free, false));
    }
  }

  /** In no interleaving does a goroutine send on a closed channel or close one twice. */
  lemma NothingPanics(run: seq<State>, actions: seq<Action>, i: nat)
    requires IsRun(run, actions) && i < |run|
    ensures !run[i].fault
  {
    RunsHold(run, actions, i);
    hide EachHolds;
  }

  /** A connection torn down to the end has had both channels closed, after its last handler signed off. */
  lemma TeardownIsComplete(run: seq<State>, actions: seq<Action>, i: nat, conn: nat)
    requires IsRun(run, actions) && i < |run| && conn in run[i].conns && run[i].conns[conn].reader.Gone?
    ensures run[i].conns[conn].sendClosed && run[i].conns[conn].doneClosed
    ensures run[i].conns[conn].handlers == map[] && conn !in run[i].subs
  {
    RunsHold(run, actions, i);
    assert ConnHolds(run[i].conns[conn], conn in run[i].subs);
    hide AnswersHold;
  }

  /** The frames written to a client answer each of its requests at most once, with that request's own id. */
  lemma EachRequestIsAnsweredOnce(run: seq<State>, actions: seq<Action>, i: nat, conn: nat)
    requires IsRun(run, actions) && i < |run| && conn in run[i].conns
    ensures OneResponseEach(run[i].conns[conn].ids, run[i].conns[conn].written)
  {
    RunsHold(run, actions, i);
    var c := run[i].conns[conn];
    assert ConnHolds(c, conn in run[i].subs);
    WrittenIsSent(c.ids, c.written, c.queue);
  }

  lemma WrittenIsSent(ids: seq<string>, written: seq<Frame>, queue: seq<Frame>)
    requires OneResponseEach(ids, written + queue)
    ensures OneResponseEach(ids, written)
  {
    assert forall i :: 0 <= i < |written| ==> (written + queue)[i] == written[i];
  }

  /** A connection whose channel is closed only drains and finishes its teardown. */
  lemma ClosedActs(c: Conn, subscribed: bool, a: Act)
    requires ConnHolds(c, subscribed) && c.sendClosed && ActEnabled(c, a)
    ensures Acted(c, a).sendClosed && Sent(Acted(c, a)) == Sent(c) && !subscribed
  {
    hide AnswersHold;
  }

  lemma ClosedIsUnsubscribed(c: Conn, subscribed: bool)
    requires ConnHolds(c, subscribed) && c.sendClosed
    ensures !subscribed
  {
    hide AnswersHold;
  }

  /** A channel once closed stays as it is: nothing is queued on it any more. */
  lemma ClosedStaysClosed(run: seq<State>, actions: seq<Action>, i: nat, conn: nat)
    requires IsRun(run, actions) && i < |actions| && conn in run[i].conns && run[i].conns[conn].sendClosed
    ensures conn in run[i + 1].conns && run[i + 1].conns[conn].sendClosed
    ensures Sent(run[i + 1].conns[conn]) == Sent(run[i].conns[conn])
  {
    RunsHold(run, actions, i);
    var s, a := run[i], actions[i];
    assert Enabled(s, a) && run[i + 1] == Next(s, a);
    assert ConnHolds(s.conns[conn], conn in s.subs);
    if a.OnConn? && a.conn == conn {
      ClosedActs(s.conns[conn], conn in s.subs, a.act);
    }
    ClosedIsUnsubscribed(s.conns[conn], conn in s.subs);
    hide ConnHolds, EachHolds, Acted, ActEnabled, Sent, Faults;
  }

  // ---------------------------------------------------------------- no request is forgotten

  predicate IsAnswered(sent: seq<Frame>, n: nat) { exists i :: 0 <= i < |sent| && sent[i].Response? && sent[i].number == n }

  /** Somebody still has request `n` in hand: the read loop, or a handler that has not got past its select. */
  predicate IsInHand(c: Conn, n: nat) {
    || ((c.reader.LookingUp? || c.reader.Answering?) && c.reader.number == n)
    || (n in c.handlers && !c.handlers[n].stage.Finishing?)
  }

  /** Every request read is answered or in hand, unless the connection is being torn down. */
  ghost predicate Accounted(c: Conn) {
    c.doneClosed || forall n :: 0 <= n < |c.ids| ==> IsAnswered(Sent(c), n) || IsInHand(c, n)
  }

  lemma AnsweredStays(sent: seq<Frame>, f: Frame, n: nat)
    ensures IsAnswered(sent, n) ==> IsAnswered(sent + [f], n)
    ensures f.Response? && f.number == n ==> IsAnswered(sent + [f], n)
  {
    if IsAnswered(sent, n) {
      var i :| 0 <= i < |sent| && sent[i].Response? && sent[i].number == n;
      assert (sent + [f])[i] == sent[i];
    }
    assert (sent + [f])[|sent|] == f;
  }

  /** A frame more on the channel, and whatever was in hand is answered by it or still in hand. */
  lemma AccountedMore(c: Conn, d: Conn, f: Frame)
    requires Accounted(c) && Sent(d) == Sent(c) + [f] && d.ids == c.ids && d.doneClosed == c.doneClosed
    requires forall n :: IsInHand(c, n) ==> IsInHand(d, n) || (f.Response? && f.number == n)
    ensures Accounted(d)
  {
    hide IsInHand, IsAnswered, Sent;
    if !d.doneClosed {
      forall n | 0 <= n < |d.ids| ensures IsAnswered(Sent(d), n) || IsInHand(d, n) {
        AnsweredStays(Sent(c), f, n);
      }
    }
  }

  lemma AccountedKept(c: Conn, a: Act)
    requires Accounted(c) && ActEnabled(c, a)
    requires forall n :: n in c.handlers ==> n < |c.ids|
    ensures Accounted(Acted(c, a))
  {
    var d := Acted(c, a);
    match a {
      case Answer =>
        assert Sent(d) == Sent(c) + [Response(c.reader.number, c.reader.id)];
        AccountedMore(c, d, Response(c.reader.number, c.reader.id));
      case Reply(n) =>
        assert Sent(d) == Sent(c) + [Response(n, c.handlers[n].id)];
        AccountedMore(c, d, Response(n, c.handlers[n].id));
      case _ =>
        assert Sent(d) == Sent(c);
        hide Sent, IsAnswered;
        assert d.doneClosed || forall n: nat :: n < |c.ids| && IsInHand(c, n) ==> IsInHand(d, n);
    }
  }

  lemma {:induction false} RunsAccount(run: seq<State>, actions: seq<Action>, i: nat)
    requires IsRun(run, actions) && i < |run|
    ensures forall conn :: conn in run[i].conns ==> Accounted(run[i].conns[conn])
  {
    if i > 0 {
      RunsAccount(run, actions, i - 1);
      RunsHold(run, actions, i - 1);
      var s, a := run[i - 1], actions[i - 1];
      assert Enabled(s, a) && run[i - 1 + 1] == Next(s, a);
      match a {
        case OnConn(conn, act) =>
          HandlersAreRead(s.conns[conn], conn in s.subs);
          AccountedKept(s.conns[conn], act);
        case BroadcastTo(conn) =>
          EventAccounted(s.conns[conn]);
        case _ =>
      }
      hide Accounted, ConnHolds, EachHolds, Acted, ActEnabled;
    }
  }

  lemma HandlersAreRead(c: Conn, subscribed: bool)
    requires ConnHolds(c, subscribed)
    ensures forall n :: n in c.handlers ==> n < |c.ids|
  {
    hide IsOpen, OneResponseEach, Sent;
  }

  lemma EventAccounted(c: Conn)
    requires Accounted(c)
    ensures Accounted(c.(queue := c.queue + [Event]))
  {
    var d := c.(queue := c.queue + [Event]);
    assert Sent(d) == Sent(c) + [Event];
    AccountedMore(c, d, Event);
  }

  /**
   * In every run, whenever a connection that is not being torn down has no handler at work and its read loop is
   * between two requests, every request it has read has been answered, exactly once.
   */
  lemma NoRequestIsForgotten(run: seq<State>, actions: seq<Action>, i: nat, conn: nat, n: nat)
    requires IsRun(run, actions) && i < |run| && conn in run[i].conns
    requires var c := run[i].conns[conn]; c.reader.Reading? && c.handlers == map[] && n < |c.ids|
    ensures var c := run[i].conns[conn];
            exists k :: 0 <= k < |Sent(c)| && Sent(c)[k] == Response(n, c.ids[n])
                        && forall j :: 0 <= j < |Sent(c)| && Sent(c)[j].Response? && Sent(c)[j].number == n ==> j == k
  {
    RunsAccount(run, actions, i);
    RunsHold(run, actions, i);
    var c := run[i].conns[conn];
    assert Accounted(c) && ConnHolds(c, conn in run[i].subs);
    hide Sent, IsOpen;
    assert IsAnswered(Sent(c), n);
    var k :| 0 <= k < |Sent(c)| && Sent(c)[k].Response? && Sent(c)[k].number == n;
    AnsweredByItsId(c.ids, Sent(c), k, n);
  }

  lemma AnsweredByItsId(ids: seq<string>, sent: seq<Frame>, k: nat, n: nat)
    requires OneResponseEach(ids, sent) && k < |sent| && sent[k].Response? && sent[k].number == n < |ids|
    ensures sent[k] == Response(n, ids[n])
    ensures forall j :: 0 <= j < |sent| && sent[j].Response? && sent[j].number == n ==> j == k
  {
  }

  // ---------------------------------------------------------------- what a broadcast does

  /** To each subscriber it comes to, a broadcast queues one event, or drops the subscriber when its queue is full. */
  lemma BroadcastDelivers(s: State, conn: nat)
    requires Holds(s) && Enabled(s, BroadcastTo(conn))
    ensures var t := Next(s, BroadcastTo(conn)); var c := s.conns[conn];
            && (if |c.queue| < 256
                then t.subs == s.subs && t.conns[conn].queue == c.queue + [Event]
                else t.subs == s.subs - {conn} && t.conns[conn] == c)
            && forall other :: other in s.conns && other != conn ==> t.conns[other] == s.conns[other]
  {
    assert ConnHolds(s.conns[conn], true);
    SubscriberIsOpen(s.conns[conn]);
    hide ConnHolds;
  }

  /** The connections that actions `i` to `k` have broadcast to. */
  function Served(actions: seq<Action>, i: nat, k: nat): set<nat>
    requires i <= k <= |actions|
  {
    set j | i <= j < k && actions[j].BroadcastTo? :: actions[j].conn
  }

  /** While a broadcast holds the lock, those it has still to come to are the subscribers it has not come to yet. */
  lemma {:induction false} TodoIsTheRest(run: seq<State>, actions: seq<Action>, i: nat, k: nat)
    requires IsRun(run, actions) && i < k <= |actions| && actions[i].StartBroadcast?
    requires forall j :: i < j < k ==> !actions[j].EndBroadcast?
    ensures run[k].lock == Broadcasting(run[i].subs - Served(actions, i, k))
    ensures forall j :: i < j < k && actions[j].BroadcastTo? ==> actions[j].conn in run[i].subs - Served(actions, i, j)
    decreases k
  {
    assert Enabled(run[k - 1], actions[k - 1]) && run[k - 1 + 1] == Next(run[k - 1], actions[k - 1]);
    hide ActEnabled, Acted, Faults;
    if k == i + 1 {
      assert Served(actions, i, k) == {};
    } else {
      TodoIsTheRest(run, actions, i, k - 1);
      var a := actions[k - 1];
      if a.BroadcastTo? {
        assert Served(actions, i, k) == Served(actions, i, k - 1) + {a.conn};
      } else {
        assert Served(actions, i, k) == Served(actions, i, k - 1);
      }
    }
  }

  /** A broadcast that ends has come to exactly those that were subscribed when it began, to each of them once. */
  lemma BroadcastReachesAll(run: seq<State>, actions: seq<Action>, i: nat, k: nat)
    requires IsRun(run, actions) && i < k < |actions| && actions[i].StartBroadcast? && actions[k].EndBroadcast?
    requires forall j :: i < j < k ==> !actions[j].EndBroadcast?
    ensures Served(actions, i, k) == run[i].subs
    ensures forall j, l :: i < j < l < k && actions[j].BroadcastTo? && actions[l].BroadcastTo? ==>
              actions[j].conn != actions[l].conn
  {
    TodoIsTheRest(run, actions, i, k);
    assert Enabled(run[k], actions[k]) && run[i].subs - Served(actions, i, k) == {};
    forall x | x in run[i].subs ensures x in Served(actions, i, k) {
      assert x !in run[i].subs - Served(actions, i, k);
    }
    forall x | x in Served(actions, i, k) ensures x in run[i].subs {
      var j :| i <= j < k && actions[j].BroadcastTo? && actions[j].conn == x;
      assert i < j;
    }
    forall j, l | i < j < l < k && actions[j].BroadcastTo? && actions[l].BroadcastTo?
      ensures actions[j].conn != actions[l].conn
    {
      assert actions[j].conn in Served(actions, i, l);
    }
  }

  /** A client that is being read is subscribed, unless a broadcast has found its queue full and dropped it. */
  lemma {:induction false} SubscribedUnlessDropped(run: seq<State>, actions: seq<Action>, i: nat, conn: nat)
    requires IsRun(run, actions) && i < |run| && conn in run[i].conns
    requires var r := run[i].conns[conn].reader; !r.Registering? && !IsLeft(r)
    ensures conn in run[i].subs || exists j :: 0 <= j < i && DropsAt(run, actions, j, conn)
  {
    if i > 0 {
      var s, a := run[i - 1], actions[i - 1];
      assert Enabled(s, a) && run[i - 1 + 1] == Next(s, a);
      if conn in s.conns && !s.conns[conn].reader.Registering? && !IsLeft(s.conns[conn].reader) {
        SubscribedUnlessDropped(run, actions, i - 1, conn);
        if a == BroadcastTo(conn) && |s.conns[conn].queue| >= 256 {
          assert DropsAt(run, actions, i - 1, conn);
        }
      }
    }
  }

  /** Action `j` is a broadcast that comes to the client while its queue is full. */
  predicate DropsAt(run: seq<State>, actions: seq<Action>, j: nat, conn: nat)
    requires j < |run| && j < |actions|
  {
    actions[j] == BroadcastTo(conn) && conn in run[j].conns && |run[j].conns[conn].queue| >= 256
  }
}
