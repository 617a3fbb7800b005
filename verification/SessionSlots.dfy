/**
 The objects of the protocol, each method one atomic step under its lock: the pool, the event
 objects and the sessions. Any sequence of calls follows the rules of Sessions.
 */
module SessionSlots {
  import opened ConfigModel
  import opened Sessions

  /** The sockets waited for, by their descriptors, up to a maximum. */
  class SocketsPool {
    var sockets: set<int>
    const max: nat

    constructor (max: nat)
      ensures sockets == {} && this.max == max
    {
      sockets := {};
      this.max := max;
    }

    method AddSocket(fd: int) returns (ok: bool)
      modifies this
      ensures ok == CanAdd(old(sockets), fd, max)
      ensures sockets == if ok then old(sockets) + {fd} else old(sockets)
    {
      if fd in sockets {
        return false;
      }
      if |sockets| >= max {
        return false;
      }
      sockets := sockets + {fd};
      return true;
    }

    method DeleteSocket(fd: int) returns (ok: bool)
      modifies this
      ensures ok == (fd in old(sockets)) && sockets == old(sockets) - {fd}
    {
      ok := fd in sockets;
      sockets := sockets - {fd};
    }
  }

  /** An event object: it is initialised, read and finished over and over again. */
  class ConnectionEvent {
    var connection: Option<Snapshot>

    constructor ()
      ensures connection == None
    {
      connection := None;
    }

    method Init(about: Option<Snapshot>)
      modifies this
      ensures connection == about
    {
      connection := about;
    }

    method Finish()
      modifies this
      ensures connection == None
    {
      connection := None;
    }

    method GetConnectionInformation() returns (info: Option<Snapshot>)
      ensures info == connection
    {
      if connection.None? {
        return None;
      }
      info := connection;
    }
  }

  class Session {
    const id: nat
    const pool: SocketsPool
    var info: Info
    var fd: int

    constructor (id: nat, pool: SocketsPool)
      ensures this.id == id && this.pool == pool && info == INACTIVE && fd == CLOSED
    {
      this.id, this.pool := id, pool;
      info, fd := INACTIVE, CLOSED;
    }

    method AcceptConnection(outcome: AcceptOutcome, now: int, newFd: int) returns (answer: Answer)
      modifies this
      ensures Effect(info, fd, pool.sockets, answer)
           == AcceptEffect(old(info), old(fd), old(pool.sockets), outcome, now, newFd)
    {
      if outcome.NotAllowed? {
        return Failed;
      }
      if outcome.NothingToAccept? || outcome.AcceptError? {
        fd := CLOSED;
        return Failed;
      }
      fd := newFd;
      info := info.(start := now);
      info := info.(lastRead := info.start);
      if outcome.SetupError? {
        if outcome == SetupError(true) {
          fd := CLOSED;
        }
        info := info.(start := 0);
        info := info.(lastRead := 0);
        return Failed;
      }
      return Ok;
    }

    /** The times are cleared last, after everything that can be refused or fail. */
    method ReleaseConnection(deleteFromSocketsPool: bool, closed: bool) returns (answer: Answer)
      modifies this, pool
      ensures Effect(info, fd, pool.sockets, answer)
           == ReleaseEffect(old(info), old(fd), old(pool.sockets), deleteFromSocketsPool, closed)
    {
      if deleteFromSocketsPool {
        var deleted := pool.DeleteSocket(fd);
        if !deleted {
          assert pool.sockets == old(pool.sockets);
          return Failed;
        }
      }
      if !closed {
        return Failed;
      }
      fd := CLOSED;
      info := info.(start := 0);
      info := info.(lastRead := 0);
      return Ok;
    }

    method ResetTimes()
      modifies this
      ensures info == INACTIVE && fd == old(fd)
    {
      info := info.(start := 0);
      info := info.(lastRead := 0);
    }

    /** Whether the slot is free, and whether its connection has been idle for too long. */
    method IsOlderThan(now: int, maxTTLSession: int) returns (isOld: bool, isFree: bool)
      ensures isFree <==> info.start == 0
      ensures isOld <==> Idle(info, now, maxTTLSession)
    {
      isOld, isFree := false, true;
      if info.start != 0 {
        isFree := false;
        if now - info.lastRead >= maxTTLSession {
          isOld := true;
        }
      }
    }

    method ReadRequest(startConnectionTime: int, outcome: ReadOutcome, now: int) returns (answer: Answer)
      modifies this, pool
      ensures Effect(info, fd, pool.sockets, answer)
           == ReadEffect(old(info), old(fd), old(pool.sockets), pool.max, startConnectionTime, outcome, now)
    {
      if startConnectionTime != info.start {
        return Stale;
      }
      if !outcome.Complete? {
        if !outcome.BodyTimeout? {
          if outcome.HeaderTimeout? {
            var added := pool.AddSocket(fd);
            if !added {
              return Failed;
            }
          }
          return Failed;
        }
        var added := pool.AddSocket(fd);
        if !added {
          return Failed;
        }
      }
      info := info.(lastRead := now);
      return Ok;
    }

    method WriteResponse(startConnectionTime: int, written: bool, isResponseFinished: bool) returns (answer: Answer)
      modifies this, pool
      ensures Effect(info, fd, pool.sockets, answer)
           == WriteEffect(old(info), old(fd), old(pool.sockets), pool.max, startConnectionTime, written, isResponseFinished)
    {
      if startConnectionTime != info.start {
        return Stale;
      }
      if !written {
        return Failed;
      }
      if isResponseFinished {
        var added := pool.AddSocket(fd);
        if !added {
          return Failed;
        }
      }
      return Ok;
    }
  }

  /** What updateSocketStatus does with the socket of a session and a free event object. */
  method Report(session: Session, event: ConnectionEvent, ready: ReadyOutcome) returns (answer: Answer)
    modifies session.pool, event
    ensures var pool, was, fd := session.pool.sockets, old(session.pool.sockets), session.fd;
            var (c, p, a) := ReadyEffect(Snapshot(session.id, session.info), fd, was, session.pool.max, old(event.connection), ready);
            event.connection == c && pool == p && answer == a
  {
    if ready.NotReady? {
      return Ok;
    }
    if ready.NoEvent? {
      return Failed;
    }
    event.Init(Some(Snapshot(session.id, session.info)));
    if ready.InitError? {
      return Failed;
    }
    var deleted := session.pool.DeleteSocket(session.fd);
    if !deleted {
      assert session.pool.sockets == old(session.pool.sockets);
      event.Finish();
      return Failed;
    }
    if ready.NotQueued? {
      var added := session.pool.AddSocket(session.fd);
      assert added ==> session.pool.sockets == old(session.pool.sockets);
      event.Finish();
      return Failed;
    }
    return Ok;
  }

  /** All the objects together, and the copies the processors have fetched. */
  class Server {
    const pool: SocketsPool
    var sessions: seq<Session>
    var events: seq<ConnectionEvent>
    var held: seq<Snapshot>

    ghost predicate Valid()
      reads this
    {
      && (forall i :: 0 <= i < |sessions| ==> sessions[i].id == i && sessions[i].pool == pool)
      && (forall i, j :: 0 <= i < j < |events| ==> events[i] != events[j])
    }

    ghost function Slots(): (r: seq<Info>)
      reads this, sessions
    {
      seq(|sessions|, i requires 0 <= i < |sessions| reads this, sessions => sessions[i].info)
    }

    ghost function Descriptors(): (r: seq<int>)
      reads this, sessions
    {
      seq(|sessions|, i requires 0 <= i < |sessions| reads this, sessions => sessions[i].fd)
    }

    ghost function Queue(): (r: seq<Option<Snapshot>>)
      reads this, events
    {
      seq(|events|, i requires 0 <= i < |events| reads this, events => events[i].connection)
    }

    ghost function State(): System
      reads this, pool, sessions, events
    {
      System(Slots(), Descriptors(), pool.sockets, pool.max, Queue(), held)
    }

    ghost predicate IsNew(s: Session, i: nat)
      reads s
    {
      s.id == i && s.pool == pool && s.info == INACTIVE && s.fd == CLOSED
    }

    constructor (slots: nat, eventObjects: nat, max: nat)
      ensures Valid() && State() == Initial(slots, eventObjects, max)
      ensures fresh(pool) && fresh(sessions) && fresh(events)
    {
      pool := new SocketsPool(max);
      sessions, events, held := [], [], [];
      new;
      for i := 0 to slots
        invariant |sessions| == i && events == [] && held == [] && fresh(sessions)
        invariant pool.sockets == {} && pool.max == max
        invariant forall k :: 0 <= k < i ==> IsNew(sessions[k], k)
      {
        var s := new Session(i, pool);
        sessions := sessions + [s];
      }
      for e := 0 to eventObjects
        invariant |events| == e && |sessions| == slots && held == [] && fresh(sessions) && fresh(events)
        invariant pool.sockets == {} && pool.max == max
        invariant forall k :: 0 <= k < slots ==> IsNew(sessions[k], k)
        invariant forall k :: 0 <= k < e ==> events[k].connection == None
        invariant forall j, k :: 0 <= j < k < e ==> events[j] != events[k]
      {
        var v := new ConnectionEvent();
        events := events + [v];
      }
    }

    /** The pool reports slot i as readable (updateSocketStatus): an event object takes a copy of
        the slot's current times, the socket leaves the pool, and the event is queued. */
    method UpdateSocketStatus(i: nat, e: nat, ready: ReadyOutcome) returns (answer: Answer)
      requires Valid() && InRange(State(), PoolReady(i, e, ready))
      modifies pool, events[e]
      ensures Valid() && (State(), answer) == Next(old(State()), PoolReady(i, e, ready))
    {
      answer := Report(sessions[i], events[e], ready);
      assert Queue() == old(Queue())[e := events[e].connection];
      assert Slots() == old(Slots());
      assert Descriptors() == old(Descriptors());
    }

    /** The sweep over all slots (handleCheckUnusedSocketsEvent), with nothing in between. */
    method Sweep(now: int, ttl: int, inFree: set<nat>, closes: seq<bool>) returns (free: set<nat>, goesOn: bool)
      requires Valid() && |closes| == |sessions|
      modifies sessions, pool
      ensures Valid()
      ensures Swept(State(), free, goesOn) == SweepFrom(old(State()), 0, now, ttl, inFree, closes)
    {
      free := inFree;
      for i := 0 to |sessions|
        invariant Valid() && |closes| == |sessions|
        invariant SweepFrom(State(), i, now, ttl, free, closes) == SweepFrom(old(State()), 0, now, ttl, inFree, closes)
      {
        free, goesOn := SweepTurn(i, now, ttl, free, closes[i]);
        if !goesOn {
          return;
        }
      }
      goesOn := true;
    }

    method SweepTurn(i: nat, now: int, ttl: int, inFree: set<nat>, closed: bool) returns (free: set<nat>, goesOn: bool)
      requires Valid() && i < |sessions|
      modifies sessions, pool
      ensures Valid() && Swept(State(), free, goesOn) == SweepSlot(old(State()), i, now, ttl, inFree, closed)
    {
      free, goesOn := inFree, true;
      var isOld, isFree := sessions[i].IsOlderThan(now, ttl);
      if isFree || !isOld {
        return;
      }
      var waiting := sessions[i].fd in pool.sockets;
      var answer := OnSession(Release(i, true, closed));
      if answer != Ok && waiting {
        return free, false;
      }
      if i in free {
        answer := OnSession(Reset(i));
      } else {
        free := free + {i};
      }
    }

    method OnSession(op: Op) returns (answer: Answer)
      requires Valid() && InRange(State(), op)
      requires op.Accept? || op.Release? || op.Reset? || op.Read? || op.Write?
      modifies sessions, pool
      ensures Valid() && (State(), answer) == Next(old(State()), op)
    {
      ghost var i: nat;
      match op {
        case Accept(k, outcome, now, fd) =>
          answer := sessions[k].AcceptConnection(outcome, now, fd);
          i := k;
        case Release(k, fromPool, closed) =>
          answer := sessions[k].ReleaseConnection(fromPool, closed);
          i := k;
        case Reset(k) =>
          sessions[k].ResetTimes();
          answer := Ok;
          i := k;
        case Read(c, outcome, now) =>
          answer := sessions[held[c].slot].ReadRequest(held[c].info.start, outcome, now);
          i := held[c].slot;
        case Write(c, written, finished) =>
          answer := sessions[held[c].slot].WriteResponse(held[c].info.start, written, finished);
          i := held[c].slot;
      }
      assert forall k :: 0 <= k < |sessions| && k != i ==> sessions[k] != sessions[i];
      assert Slots() == old(Slots())[i := sessions[i].info];
      assert Descriptors() == old(Descriptors())[i := sessions[i].fd];
      assert Queue() == old(Queue());
      assert op.Reset? ==> Descriptors() == old(Descriptors());
    }

    method OnEvent(op: Op) returns (answer: Answer)
      requires Valid() && InRange(State(), op) && (op.InitEvent? || op.FinishEvent?)
      modifies events
      ensures Valid() && (State(), answer) == Next(old(State()), op)
    {
      answer := Ok;
      match op {
        case InitEvent(k, about) =>
          events[k].Init(if about.Some? then Some(Snapshot(about.value, sessions[about.value].info)) else None);
        case FinishEvent(k) =>
          events[k].Finish();
      }
      assert Slots() == old(Slots()) && Descriptors() == old(Descriptors());
      assert Queue() == old(Queue())[op.event := events[op.event].connection];
    }

    /** A processor copies the event's connection information. */
    method FetchEvent(e: nat) returns (answer: Answer)
      requires Valid() && e < |events|
      modifies this`held
      ensures Valid() && (State(), answer) == Next(old(State()), Fetch(e))
    {
      var info := events[e].GetConnectionInformation();
      if info.Some? {
        held := held + [info.value];
        answer := Ok;
      } else {
        answer := Failed;
      }
      assert Slots() == old(Slots()) && Descriptors() == old(Descriptors()) && Queue() == old(Queue());
    }

    method Perform(op: Op) returns (answer: Answer)
      requires Valid() && InRange(State(), op)
      modifies this`held, pool, sessions, events
      ensures Valid() && (State(), answer) == Next(old(State()), op)
    {
      match op {
        case PoolReady(i, e, ready) =>
          answer := UpdateSocketStatus(i, e, ready);
        case InitEvent(_, _) =>
          answer := OnEvent(op);
        case FinishEvent(_) =>
          answer := OnEvent(op);
        case Fetch(e) =>
          answer := FetchEvent(e);
        case _ =>
          answer := OnSession(op);
      }
    }
  }

  /** Operations in any order, from fresh objects; one that mentions something that does not
      exist is skipped. The objects are always in a state reached by the rules, to which every
      law about reached states applies. */
  method Drive(slots: nat, eventObjects: nat, max: nat, ops: seq<Op>)
    returns (server: Server, answers: seq<Answer>, ghost done: seq<Op>, ghost t: Traced)
    ensures fresh(server) && server.Valid() && server.State() == t.sys
    ensures Reaches(slots, eventObjects, max, done, t) && |done| == |answers| <= |ops|
    ensures forall i: nat :: i < |done| ==> done[i] in ops
  {
    hide Reaches, TracedNext, Next, InRange, TracedShape;
    server := new Server(slots, eventObjects, max);
    answers, done, t := [], [], TracedInitial(slots, eventObjects, max);
    InitialIsReached(slots, eventObjects, max);
    for i := 0 to |ops|
      invariant fresh(server) && fresh(server.pool) && fresh(server.sessions) && fresh(server.events)
      invariant server.Valid() && server.State() == t.sys && TracedShape(t)
      invariant Reaches(slots, eventObjects, max, done, t) && |done| == |answers| <= i
      invariant forall k: nat :: k < |done| ==> done[k] in ops
    {
      var possible := CanPerform(server, ops[i]);
      if possible {
        var answer := server.Perform(ops[i]);
        answers := answers + [answer];
        done, t := Extend(slots, eventObjects, max, done, t, ops[i]);
      }
    }
  }

  method CanPerform(server: Server, op: Op) returns (possible: bool)
    requires server.Valid()
    ensures possible == InRange(server.State(), op)
  {
    match op {
      case Accept(i, _, _, fd) =>
        possible := i < |server.sessions| && fd >= 0;
        for k := 0 to |server.sessions|
          invariant possible == (i < |server.sessions| && fd >= 0 && fd !in server.Descriptors()[..k])
        {
          assert server.Descriptors()[..k + 1] == server.Descriptors()[..k] + [server.sessions[k].fd];
          possible := possible && server.sessions[k].fd != fd;
        }
        assert server.Descriptors()[..|server.sessions|] == server.Descriptors();
      case Release(i, _, _) => possible := i < |server.sessions|;
      case Reset(i) => possible := i < |server.sessions|;
      case PoolReady(i, e, _) =>
        possible := i < |server.sessions| && e < |server.events| &&
                    (op.ready.NotReady? || op.ready.NoEvent? || server.sessions[i].fd != CLOSED);
      case InitEvent(e, about) =>
        possible := e < |server.events| && (about.None? || about.value < |server.sessions|);
      case FinishEvent(e) => possible := e < |server.events|;
      case Fetch(e) => possible := e < |server.events|;
      case Read(c, _, _) => possible := c < |server.held| && server.held[c].slot < |server.sessions|;
      case Write(c, _, _) => possible := c < |server.held| && server.held[c].slot < |server.sessions|;
    }
  }
}
