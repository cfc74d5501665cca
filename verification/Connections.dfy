/**
 The TCP side of source_network.go: the connection table under its mutex, the accept loop, one goroutine a
 connection, and Close from outside. Every critical section and every call that another goroutine can
 observe is one method; a schedule interleaves them.
 */
module Connections {

  // A connection is known by the number of its Accept.
  type Conn = nat

  // How far a connection has come: accepted and in the hands of the loop; in the table; its framer running;
  // out of the table but not closed by removeConn; closed there with wg.Done to come; done with.
  datatype Stage = Arrived | Added | Serving | Leaving | Finishing | Gone

  // Where the accept loop is: in ln.Accept, before addConn, before wg.Add and go, before conn.Close on a
  // refused connection, in wg.Wait, after q.Close.
  datatype LoopState =
    | Accepting
    | Holding(conn: Conn)
    | Starting(conn: Conn)
    | Refusing(conn: Conn)
    | WaitingForFramers
    | Returned

  // Close: mark and copy the table under the mutex, then the listener, then the copied connections. It has
  // returned when none is left.
  datatype CloserState = NotCalled | ClosingListener | ClosingConns(left: set<Conn>)

  datatype Turn =
    | AcceptReturns
    | AcceptFails
    | AddConn
    | StartFramer
    | Refuse
    | Remove(conn: Conn)
    | CloseRemoved(conn: Conn)
    | WgDone(conn: Conn)
    | CallClose
    | CloseListener
    | CloseConn(conn: Conn)
    | LoopReturns

  predicate InTable(s: Stage) {
    s.Added? || s.Serving?
  }

  // Between wg.Add and wg.Done.
  predicate Waited(s: Stage) {
    s.Serving? || s.Leaving? || s.Finishing?
  }

  function Count(stages: seq<Stage>): nat {
    if stages == [] then 0
    else Count(stages[..|stages| - 1]) + if Waited(stages[|stages| - 1]) then 1 else 0
  }

  lemma {:induction false} CountUpdate(stages: seq<Stage>, c: Conn, s: Stage)
    requires c < |stages|
    ensures Count(stages[c := s]) ==
            Count(stages) - (if Waited(stages[c]) then 1 else 0) + (if Waited(s) then 1 else 0)
  {
    var n := |stages| - 1;
    if c < n {
      CountUpdate(stages[..n], c, s);
      assert stages[c := s][..n] == stages[..n][c := s];
    } else {
      assert stages[c := s][..n] == stages[..n];
    }
  }

  lemma {:induction false} CountZero(stages: seq<Stage>)
    ensures Count(stages) == 0 <==> forall c :: 0 <= c < |stages| ==> !Waited(stages[c])
  {
    if stages != [] {
      var n := |stages| - 1;
      CountZero(stages[..n]);
      assert forall c :: 0 <= c < n ==> stages[..n][c] == stages[c];
    }
  }

  // The source at one moment.
  datatype Snapshot = Snapshot(
    closed: bool, conns: set<Conn>, listening: bool, loop: LoopState, closer: CloserState, copied: set<Conn>,
    queueClosed: bool, wg: nat, stage: seq<Stage>, shut: set<Conn>)
  {
    function Puts(c: Conn, x: Stage): Snapshot {
      if c < |stage| then this.(stage := stage[c := x]) else this
    }
  }

  predicate CanHappen(s: Snapshot, t: Turn) {
    match t
    case AcceptReturns => s.loop.Accepting? && s.listening
    case AcceptFails => s.loop.Accepting? && !s.listening
    case AddConn => s.loop.Holding?
    case StartFramer => s.loop.Starting?
    case Refuse => s.loop.Refusing?
    case Remove(conn) => conn < |s.stage| && s.stage[conn].Serving?
    case CloseRemoved(conn) => conn < |s.stage| && s.stage[conn].Leaving?
    case WgDone(conn) => conn < |s.stage| && s.stage[conn].Finishing?
    case CallClose => true
    case CloseListener => s.closer.ClosingListener?
    case CloseConn(conn) => s.closer.ClosingConns? && conn in s.closer.left
    case LoopReturns => s.loop.WaitingForFramers? && s.wg == 0
  }

  // What each turn does.
  function After(maxConnections: nat, s: Snapshot, t: Turn): Snapshot
    requires CanHappen(s, t)
  {
    match t
    case AcceptReturns => s.(loop := Holding(|s.stage|), stage := s.stage + [Arrived])
    case AcceptFails => s.(loop := WaitingForFramers)
    case AddConn =>
      var c := s.loop.conn;
      if !s.closed && |s.conns| < maxConnections then s.(conns := s.conns + {c}, loop := Starting(c)).Puts(c, Added)
      else s.(loop := Refusing(c))
    case StartFramer => s.(wg := s.wg + 1, loop := Accepting).Puts(s.loop.conn, Serving)
    case Refuse => s.(shut := s.shut + {s.loop.conn}, loop := Accepting).Puts(s.loop.conn, Gone)
    case Remove(conn) => s.(conns := s.conns - {conn}).Puts(conn, Leaving)
    case CloseRemoved(conn) => s.(shut := s.shut + {conn}).Puts(conn, Finishing)
    case WgDone(conn) => (if s.wg > 0 then s.(wg := s.wg - 1) else s).Puts(conn, Gone)
    case CallClose => if s.closed then s else s.(closed := true, closer := ClosingListener, copied := s.conns)
    case CloseListener => s.(listening := false, closer := ClosingConns(s.copied))
    case CloseConn(conn) => s.(closer := ClosingConns(s.closer.left - {conn}), shut := s.shut + {conn})
    case LoopReturns => s.(loop := Returned, queueClosed := true)
  }

  // A schedule, leaving out what cannot happen when its turn comes.
  function AfterAll(maxConnections: nat, s: Snapshot, schedule: seq<Turn>): Snapshot {
    if schedule == [] then s
    else
      var mid, t := AfterAll(maxConnections, s, schedule[..|schedule| - 1]), schedule[|schedule| - 1];
      if CanHappen(mid, t) then After(maxConnections, mid, t) else mid
  }

  // No framer stops being served except by its own Remove.
  ghost predicate KeepsServing(before: seq<Stage>, after: seq<Stage>, t: Turn) {
    && |before| <= |after|
    && (forall c :: 0 <= c < |before| && before[c].Serving? && t != Remove(c) ==> after[c].Serving?)
  }

  // Turns a connection has still to see.
  function ToGo(s: Stage): nat {
    match s
    case Arrived => 16
    case Added => 12
    case Serving => 8
    case Leaving => 4
    case Finishing => 2
    case Gone => 0
  }

  function Work(stages: seq<Stage>): nat {
    if stages == [] then 0 else Work(stages[..|stages| - 1]) + ToGo(stages[|stages| - 1])
  }

  lemma {:induction false} WorkUpdate(stages: seq<Stage>, c: Conn, s: Stage)
    requires c < |stages|
    ensures Work(stages[c := s]) == Work(stages) - ToGo(stages[c]) + ToGo(s)
  {
    var n := |stages| - 1;
    if c < n {
      WorkUpdate(stages[..n], c, s);
      assert stages[c := s][..n] == stages[..n][c := s];
    } else {
      assert stages[c := s][..n] == stages[..n];
    }
  }

  function LoopRank(l: LoopState): nat {
    match l
    case Holding(_) => 5
    case Accepting => 4
    case Starting(_) => 3
    case Refusing(_) => 3
    case WaitingForFramers => 2
    case Returned => 1
  }

  function CloserRank(c: CloserState, copied: set<Conn>): nat {
    match c
    case NotCalled => 0
    case ClosingListener => |copied| + 1
    case ClosingConns(left) => |left|
  }

  // How much of an orderly end is still to come.
  function Remaining(s: Snapshot): nat {
    Work(s.stage) + LoopRank(s.loop) + CloserRank(s.closer, s.copied)
  }

  // The loop has in hand what it took from the listener.
  predicate InHand(s: Snapshot) {
    && (s.loop.Holding? || s.loop.Refusing? ==> s.loop.conn < |s.stage| && s.stage[s.loop.conn].Arrived?)
    && (s.loop.Starting? ==> s.loop.conn < |s.stage| && s.stage[s.loop.conn].Added?)
  }

  lemma TurnKeepsServing(maxConnections: nat, s: Snapshot, t: Turn)
    requires CanHappen(s, t) && InHand(s)
    ensures KeepsServing(s.stage, After(maxConnections, s, t).stage, t)
  {
  }

  // The connection that a turn moves on, and how far.
  lemma TurnWork(maxConnections: nat, s: Snapshot, t: Turn)
    requires CanHappen(s, t) && InHand(s) && !t.AcceptReturns?
    ensures var w, w' := Work(s.stage), Work(After(maxConnections, s, t).stage);
            && (t.AddConn? ==> w' == w - 4 || w' == w)
            && (t.StartFramer? ==> w' == w - 4) && (t.Refuse? ==> w' == w - 16)
            && (t.Remove? ==> w' == w - 4) && (t.CloseRemoved? || t.WgDone? ==> w' == w - 2)
            && w' <= w
  {
    hide Work;
    match t
    case AddConn => WorkUpdate(s.stage, s.loop.conn, Added);
    case StartFramer => WorkUpdate(s.stage, s.loop.conn, Serving);
    case Refuse => WorkUpdate(s.stage, s.loop.conn, Gone);
    case Remove(conn) => WorkUpdate(s.stage, conn, Leaving);
    case CloseRemoved(conn) => WorkUpdate(s.stage, conn, Finishing);
    case WgDone(conn) => WorkUpdate(s.stage, conn, Gone);
    case _ =>
  }

  lemma TurnLoopRank(maxConnections: nat, s: Snapshot, t: Turn)
    requires CanHappen(s, t) && !t.AcceptReturns?
    ensures var l, l' := LoopRank(s.loop), LoopRank(After(maxConnections, s, t).loop);
            if t.AddConn? then l' == l - 2
            else if t.StartFramer? || t.Refuse? then l' == l + 1
            else if t.AcceptFails? then l' == l - 2
            else if t.LoopReturns? then l' == l - 1
            else l' == l
  {
  }

  lemma TurnCloserRank(maxConnections: nat, s: Snapshot, t: Turn)
    requires CanHappen(s, t) && !t.CallClose?
    ensures var s' := After(maxConnections, s, t);
            var c, c' := CloserRank(s.closer, s.copied), CloserRank(s'.closer, s'.copied);
            if t.CloseListener? || t.CloseConn? then c' == c - 1 else c' == c
  {
  }

  // Apart from new connections and calls of Close each turn leaves less to do.
  lemma TurnLeavesLess(maxConnections: nat, s: Snapshot, t: Turn)
    requires CanHappen(s, t) && InHand(s) && !t.AcceptReturns? && !t.CallClose?
    ensures Remaining(After(maxConnections, s, t)) < Remaining(s)
  {
    TurnWork(maxConnections, s, t);
    TurnLoopRank(maxConnections, s, t);
    TurnCloserRank(maxConnections, s, t);
    hide Work, InHand, LoopRank, CloserRank, After, CanHappen;
  }

  // Once closed, no connection gets into the table.
  lemma TurnAfterClose(maxConnections: nat, s: Snapshot, t: Turn)
    requires CanHappen(s, t)
    ensures var s' := After(maxConnections, s, t);
            && (s.closed ==> s'.closed && s'.conns <= s.conns) && s'.queueClosed == (s.queueClosed || t.LoopReturns?)
  {
  }

  class TCPSource {
    const maxConnections: nat
    var closed: bool
    var conns: set<Conn>
    var active: int
    var listening: bool
    var loop: LoopState
    var closer: CloserState
    var copied: set<Conn>      // what Close found in the table
    var queueClosed: bool
    var wg: nat                // the WaitGroup counter
    var stage: seq<Stage>      // of every connection the listener has returned
    var shut: set<Conn>        // those on which conn.Close has been called

    // The table is counted right, bounded, and holds exactly the connections in it.
    ghost predicate TableOk()
      reads this
    {
      && active == |conns| <= maxConnections
      && (forall c :: c in conns <==> 0 <= c < |stage| && InTable(stage[c]))
      && wg == Count(stage)
    }

    // The loop has in hand what has arrived, and starts what was added.
    ghost predicate LoopOk()
      reads this
    {
      && (forall c :: 0 <= c < |stage| ==> (stage[c].Arrived? <==> loop == Holding(c) || loop == Refusing(c)))
      && (forall c :: 0 <= c < |stage| ==> (stage[c].Added? <==> loop == Starting(c)))
      && (loop.Holding? || loop.Starting? || loop.Refusing? ==> loop.conn < |stage|)
      && (loop.WaitingForFramers? || loop.Returned? ==> closed && !listening)
      && (queueClosed <==> loop.Returned?)
      && (loop.Returned? ==> wg == 0)
    }

    // Close misses nothing of the table.
    ghost predicate CloserOk()
      reads this
    {
      && (closer.NotCalled? <==> !closed)
      && (!listening <==> closer.ClosingConns?)
      && (if closed then conns <= copied else copied == {})
      && (closer.ClosingConns? ==> closer.left <= copied && forall c :: c in copied ==> c in shut || c in closer.left)
      && (forall c :: c in copied ==> c < |stage| && !stage[c].Arrived?)
      && (forall c :: c in shut ==> c < |stage| && (c in copied || stage[c].Finishing? || stage[c].Gone?))
      && (forall c :: 0 <= c < |stage| && (stage[c].Finishing? || stage[c].Gone?) ==> c in shut)
    }

    ghost predicate Valid()
      reads this
    {
      TableOk() && LoopOk() && CloserOk()
    }

    constructor (maxConnections: nat)
      ensures Valid() && !closed && listening && stage == [] && loop == Accepting && shut == {}
      ensures this.maxConnections == maxConnections && !queueClosed && conns == {} && active == 0
    {
      this.maxConnections := maxConnections;
      closed, conns, active, listening, loop, closer, queueClosed := false, {}, 0, true, Accepting, NotCalled, false;
      wg, stage, shut, copied := 0, [], {}, {};
    }

    // ln.Accept returns a new connection.
    method AcceptReturns()
      requires Valid() && loop.Accepting? && listening
      modifies this`loop, this`stage
      ensures Valid() && loop == Holding(|old(stage)|) && stage == old(stage) + [Arrived]
    {
      assert (stage + [Arrived])[..|stage|] == stage;
      loop, stage := Holding(|stage|), stage + [Arrived];
    }

    // Accept fails because the listener is closed; isClosed tells the loop that this is the end.
    method AcceptFails()
      requires Valid() && loop.Accepting? && !listening
      modifies this`loop
      ensures Valid() && loop == WaitingForFramers
    {
      loop := WaitingForFramers;
    }

    // addConn, under the mutex: the connection gets a place exactly if the source is open and below its limit.
    method AddConn()
      requires Valid() && loop.Holding?
      modifies this`conns, this`active, this`loop, this`stage
      ensures Valid()
      ensures if !closed && old(active) < maxConnections
              then loop == Starting(old(loop).conn) && conns == old(conns) + {old(loop).conn} && stage == old(stage)[old(loop).conn := Added]
              else loop == Refusing(old(loop).conn) && conns == old(conns) && stage == old(stage)
    {
      if closed || active >= maxConnections {
        loop := Refusing(loop.conn);
        return;
      }
      TakePlace();
    }

    method TakePlace()
      requires Valid() && loop.Holding? && !closed && active < maxConnections
      modifies this`conns, this`active, this`loop, this`stage
      ensures Valid() && loop == Starting(old(loop).conn)
      ensures conns == old(conns) + {old(loop).conn} && stage == old(stage)[old(loop).conn := Added]
    {
      var conn := loop.conn;
      CountUpdate(stage, conn, Added);
      hide Count;
      conns := conns + {conn};
      active := active + 1;
      loop, stage := Starting(conn), stage[conn := Added];
    }

    // wg.Add(1) and go
    method StartFramer()
      requires Valid() && loop.Starting?
      modifies this`wg, this`stage, this`loop
      ensures Valid() && loop == Accepting && wg == old(wg) + 1 && stage == old(stage)[old(loop).conn := Serving]
    {
      CountUpdate(stage, loop.conn, Serving);
      wg, stage := wg + 1, stage[loop.conn := Serving];
      loop := Accepting;
    }

    // conn.Close on a connection that got no place
    method Refuse()
      requires Valid() && loop.Refusing?
      modifies this`shut, this`loop, this`stage
      ensures Valid() && loop == Accepting
      ensures shut == old(shut) + {old(loop).conn} && stage == old(stage)[old(loop).conn := Gone]
    {
      CountUpdate(stage, loop.conn, Gone);
      shut, stage := shut + {loop.conn}, stage[loop.conn := Gone];
      loop := Accepting;
    }

    // A connection's framer has returned: removeConn, under the mutex.
    method Remove(conn: Conn)
      requires Valid() && conn < |stage| && stage[conn].Serving?
      modifies this`conns, this`active, this`stage
      ensures Valid() && conns == old(conns) - {conn} && stage == old(stage)[conn := Leaving]
    {
      CountUpdate(stage, conn, Leaving);
      if conn in conns {
        conns := conns - {conn};
        active := active - 1;
      }
      stage := stage[conn := Leaving];
    }

    // The conn.Close of removeConn, after the mutex is released.
    method CloseRemoved(conn: Conn)
      requires Valid() && conn < |stage| && stage[conn].Leaving?
      modifies this`shut, this`stage
      ensures Valid() && shut == old(shut) + {conn} && stage == old(stage)[conn := Finishing]
    {
      CountUpdate(stage, conn, Finishing);
      shut, stage := shut + {conn}, stage[conn := Finishing];
    }

    method WgDone(conn: Conn)
      requires Valid() && conn < |stage| && stage[conn].Finishing?
      modifies this`wg, this`stage
      ensures Valid() && wg == old(wg) - 1 && stage == old(stage)[conn := Gone]
    {
      CountUpdate(stage, conn, Gone);
      wg, stage := wg - 1, stage[conn := Gone];
    }

    // Close, under the mutex. A second call does nothing.
    method CallClose()
      requires Valid()
      modifies this`closed, this`closer, this`copied
      ensures Valid() && closed && !closer.NotCalled?
      ensures closer == if old(closed) then old(closer) else ClosingListener
      ensures copied == if old(closed) then old(copied) else conns
    {
      if closed {
        return;
      }
      closed := true;
      closer, copied := ClosingListener, conns;
    }

    method CloseListener()
      requires Valid() && closer.ClosingListener?
      modifies this`listening, this`closer
      ensures Valid() && !listening && closer == ClosingConns(copied)
    {
      listening, closer := false, ClosingConns(copied);
    }

    // One of the copied connections, in whatever order.
    method CloseConn(conn: Conn)
      requires Valid() && closer.ClosingConns? && conn in closer.left
      modifies this`closer, this`shut
      ensures Valid() && closer == ClosingConns(old(closer).left - {conn}) && shut == old(shut) + {conn}
    {
      closer, shut := ClosingConns(closer.left - {conn}), shut + {conn};
    }

    // wg.Wait has returned; q.Close. No framer is between wg.Add and wg.Done.
    method LoopReturns()
      requires Valid() && loop.WaitingForFramers? && wg == 0
      modifies this`loop, this`queueClosed
      ensures Valid() && loop == Returned && queueClosed
      ensures forall c :: 0 <= c < |stage| ==> stage[c].Gone?
    {
      CountZero(stage);
      loop, queueClosed := Returned, true;
    }

    function View(): Snapshot
      reads this
    {
      Snapshot(closed, conns, listening, loop, closer, copied, queueClosed, wg, stage, shut)
    }

    predicate Enabled(t: Turn)
      reads this
    {
      CanHappen(View(), t)
    }

    method TakeTurn(t: Turn)
      requires Valid() && Enabled(t)
      modifies this
      ensures Valid() && View() == After(maxConnections, old(View()), t)
      ensures old(closed) ==> closed && conns <= old(conns)
      ensures !t.AcceptReturns? && !t.CallClose? ==> Remaining(View()) < Remaining(old(View()))
      ensures KeepsServing(old(stage), stage, t) && queueClosed == (old(queueClosed) || t.LoopReturns?)
    {
      ghost var s := View();
      WhatIsInHand();
      TurnAfterClose(maxConnections, s, t);
      TurnKeepsServing(maxConnections, s, t);
      if !t.AcceptReturns? && !t.CallClose? {
        TurnLeavesLess(maxConnections, s, t);
      }
      hide Valid, Remaining, KeepsServing, After, InHand;
      if t.Remove? || t.CloseRemoved? || t.WgDone? {
        FramerTurn(t);
      } else if t.CallClose? || t.CloseListener? || t.CloseConn? {
        CloserTurn(t);
      } else if t.AddConn? || t.StartFramer? || t.Refuse? {
        HandOn(t);
      } else {
        LoopTurn(t);
      }
    }

    // What the accept loop does with a connection.
    method HandOn(t: Turn)
      requires Valid() && Enabled(t) && (t.AddConn? || t.StartFramer? || t.Refuse?)
      modifies this
      ensures Valid() && View() == After(maxConnections, old(View()), t)
    {
      WhatIsInHand();
      hide Valid;
      match t {
        case AddConn => AddConn();
        case StartFramer => StartFramer();
        case Refuse => Refuse();
      }
    }

    // The rest of the accept loop.
    method LoopTurn(t: Turn)
      requires Valid() && Enabled(t) && (t.AcceptReturns? || t.AcceptFails? || t.LoopReturns?)
      modifies this
      ensures Valid() && View() == After(maxConnections, old(View()), t)
    {
      hide Valid;
      match t {
        case AcceptReturns => AcceptReturns();
        case AcceptFails => AcceptFails();
        case LoopReturns => LoopReturns();
      }
    }

    // A framer goroutine's part, after its framer has returned.
    method FramerTurn(t: Turn)
      requires Valid() && Enabled(t) && (t.Remove? || t.CloseRemoved? || t.WgDone?)
      modifies this
      ensures Valid() && View() == After(maxConnections, old(View()), t)
    {
      hide Valid;
      match t {
        case Remove(conn) => Remove(conn);
        case CloseRemoved(conn) => CloseRemoved(conn);
        case WgDone(conn) => WgDone(conn);
      }
    }

    // Close's part.
    method CloserTurn(t: Turn)
      requires Valid() && Enabled(t) && (t.CallClose? || t.CloseListener? || t.CloseConn?)
      modifies this
      ensures Valid() && View() == After(maxConnections, old(View()), t)
    {
      hide Valid;
      match t {
        case CallClose => CallClose();
        case CloseListener => CloseListener();
        case CloseConn(conn) => CloseConn(conn);
      }
    }

    lemma WhatIsInHand()
      requires Valid()
      ensures InHand(View()) && active == |conns|
    {
    }

    // Any run: once closed, no connection gets into the table any more; once the queue is closed no framer
    // is left.
    method Run(schedule: seq<Turn>)
      requires Valid()
      modifies this
      ensures Valid() && View() == AfterAll(maxConnections, old(View()), schedule)
      ensures old(closed) ==> closed && conns <= old(conns)
      ensures queueClosed ==> forall c :: 0 <= c < |stage| ==> stage[c].Gone? && c in shut
    {
      for i := 0 to |schedule|
        invariant Valid() && View() == AfterAll(maxConnections, old(View()), schedule[..i])
        invariant old(closed) ==> closed && conns <= old(conns)
      {
        assert schedule[..i + 1][..i] == schedule[..i];
        if Enabled(schedule[i]) {
          TakeTurn(schedule[i]);
        }
      }
      assert schedule[..|schedule|] == schedule;
      ClosedQueueMeansAllShut(this);
    }
  }

  // When the queue is closed, every connection the listener ever returned has been closed.
  lemma ClosedQueueMeansAllShut(s: TCPSource)
    requires s.Valid()
    ensures s.queueClosed ==> forall c :: 0 <= c < |s.stage| ==> s.stage[c].Gone? && c in s.shut
  {
    CountZero(s.stage);
  }

  // Not yet or no longer in the table, and not closed by whoever has it in hand.
  predicate OutOfReach(s: Stage) {
    s.Arrived? || s.Leaving?
  }

  // When Close has returned, a connection that is still open was out of its reach: the accept loop has it in
  // hand, on its way to addConn or to being refused, or its own goroutine has it, between the delete of
  // removeConn and the conn.Close after it.
  lemma CloseReachesTheTable(s: TCPSource)
    requires s.Valid() && s.closer == ClosingConns({})
    ensures forall c :: 0 <= c < |s.stage| ==> c in s.shut || OutOfReach(s.stage[c])
    ensures forall c :: 0 <= c < |s.stage| && s.stage[c].Arrived? ==> s.loop == Holding(c) || s.loop == Refusing(c)
    ensures forall c :: c in s.conns ==> c in s.shut
  {
    forall c | 0 <= c < |s.stage| ensures c in s.shut || OutOfReach(s.stage[c]) {
      if InTable(s.stage[c]) {
        assert c in s.conns;
      }
    }
  }

  // Exactly: everything is closed by then if and only if the accept loop has nothing in hand, and whatever is
  // just leaving was still in the table when Close looked.
  lemma AllShutIff(s: TCPSource)
    requires s.Valid() && s.closer == ClosingConns({})
    ensures (forall c :: 0 <= c < |s.stage| ==> c in s.shut) <==>
            !s.loop.Holding? && !s.loop.Refusing?
            && (forall c :: 0 <= c < |s.stage| && s.stage[c].Leaving? ==> c in s.copied)
  {
    CloseReachesTheTable(s);
    if s.loop.Holding? || s.loop.Refusing? {
      assert s.stage[s.loop.conn].Arrived? && s.loop.conn !in s.shut;
    }
  }

  // Both exceptions happen. Accept returns a connection and Close runs to its end before addConn.
  method CloseBeforeAddConn() returns (s: TCPSource)
    ensures fresh(s) && s.Valid() && s.closer == ClosingConns({})
    ensures |s.stage| == 1 && s.stage[0].Arrived? && 0 !in s.shut
  {
    hide TCPSource.Valid, TCPSource.TableOk, TCPSource.LoopOk, TCPSource.CloserOk;
    s := new TCPSource(1);
    s.AcceptReturns();
    s.CallClose();
    s.CloseListener();
  }

  // A connection's framer has returned and removeConn has taken it out of the table; Close runs to its end
  // before the conn.Close that follows.
  method CloseWithinRemoveConn() returns (s: TCPSource)
    ensures fresh(s) && s.Valid() && s.closer == ClosingConns({})
    ensures |s.stage| == 1 && s.stage[0].Leaving? && 0 !in s.shut
  {
    hide TCPSource.Valid, TCPSource.TableOk, TCPSource.LoopOk, TCPSource.CloserOk;
    s := new TCPSource(1);
    s.AcceptReturns();
    s.AddConn();
    s.StartFramer();
    s.Remove(0);
    s.CallClose();
    s.CloseListener();
  }

  // Once Close has been called, something else than a new call or connection can always happen until the
  // queue is closed, and a framer is never needed to return before its connection was closed; as each such
  // turn leaves less to do, a shutdown ends, and then every connection has been closed.
  lemma ShutdownNeverStalls(s: TCPSource) returns (t: Turn)
    requires s.Valid() && s.closed && !s.queueClosed
    ensures s.Enabled(t) && !t.CallClose? && !t.AcceptReturns?
    ensures t.Remove? ==> t.conn in s.shut
  {
    CountZero(s.stage);
    if s.loop.Holding? {
      t := AddConn;
    } else if s.loop.Starting? {
      t := StartFramer;
    } else if s.loop.Refusing? {
      t := Refuse;
    } else if s.closer.ClosingListener? {
      t := CloseListener;
    } else if s.closer.left != {} {
      var c :| c in s.closer.left;
      t := CloseConn(c);
    } else if s.loop.Accepting? {
      t := AcceptFails;
    } else if s.wg == 0 {
      t := LoopReturns;
    } else {
      var c: Conn :| c < |s.stage| && Waited(s.stage[c]);
      assert s.stage[c].Serving? ==> c in s.conns;
      t := if s.stage[c].Serving? then Remove(c) else if s.stage[c].Leaving? then CloseRemoved(c) else WgDone(c);
    }
  }
}
