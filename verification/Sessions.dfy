/**
 Session slots that are reused across connections, and the start-time token that guards
 events about a slot: the rules of one step, stated on values.
 */
module Sessions {
  import opened ConfigModel

  /** The changing part of ConnectionInformation; start time 0 marks a slot that is not active. */
  datatype Info = Info(start: int, lastRead: int)

  const INACTIVE := Info(0, 0)

  /** The descriptor of a client socket that is not open. */
  const CLOSED := -1

  /** A copy of ConnectionInformation: the slot, and its times when the copy was made. */
  datatype Snapshot = Snapshot(slot: nat, info: Info)

  datatype Answer = Ok | Stale | Failed

  // What sockets do is not decided here; these are the possibilities.
  datatype AcceptOutcome = NotAllowed | NothingToAccept | AcceptError | SetupError(closed: bool) | Accepted
  datatype ReadOutcome = Complete | HeaderTimeout | BodyTimeout | EndOfFile | ReadError
  // NoEvent: the socket is in an exceptional state or cannot be polled, or no event object is free.
  datatype ReadyOutcome = NotReady | NoEvent | InitError | NotQueued | Queued

  /** What a slot, its descriptor and the pool become, and the answer. */
  datatype Effect = Effect(info: Info, fd: int, pool: set<int>, answer: Answer)

  /** A failed accept() overwrites the descriptor as well. If a later step of the setup fails, the new
      socket is closed; when even that fails its descriptor stays although the times are cleared. */
  function AcceptEffect(info: Info, fd: int, pool: set<int>, outcome: AcceptOutcome, now: int, newFd: int): Effect {
    match outcome
    case NotAllowed => Effect(info, fd, pool, Failed)
    case NothingToAccept => Effect(info, CLOSED, pool, Failed)
    case AcceptError => Effect(info, CLOSED, pool, Failed)
    case SetupError(closed) => Effect(INACTIVE, if closed then CLOSED else newFd, pool, Failed)
    case Accepted => Effect(Info(now, now), newFd, pool, Ok)
  }

  predicate CanAdd(pool: set<int>, fd: int, max: nat) {
    fd !in pool && |pool| < max
  }

  /** Release: refused, and without any effect, if the socket should leave the pool but is not in it. */
  function ReleaseEffect(info: Info, fd: int, pool: set<int>, fromPool: bool, closed: bool): Effect {
    if fromPool && fd !in pool then Effect(info, fd, pool, Failed)
    else
      var pool' := if fromPool then pool - {fd} else pool;
      if closed then Effect(INACTIVE, CLOSED, pool', Ok) else Effect(info, fd, pool', Failed)
  }

  function ReadEffect(info: Info, fd: int, pool: set<int>, max: nat, token: int, outcome: ReadOutcome, now: int): Effect {
    if token != info.start then Effect(info, fd, pool, Stale)
    else
      match outcome
      case Complete => Effect(info.(lastRead := now), fd, pool, Ok)
      case HeaderTimeout => Effect(info, fd, if CanAdd(pool, fd, max) then pool + {fd} else pool, Failed)
      case BodyTimeout =>
        if CanAdd(pool, fd, max) then Effect(info.(lastRead := now), fd, pool + {fd}, Ok) else Effect(info, fd, pool, Failed)
      case EndOfFile => Effect(info, fd, pool, Failed)
      case ReadError => Effect(info, fd, pool, Failed)
  }

  function WriteEffect(info: Info, fd: int, pool: set<int>, max: nat, token: int, written: bool, finished: bool): Effect {
    if token != info.start then Effect(info, fd, pool, Stale)
    else if !written then Effect(info, fd, pool, Failed)
    else if !finished then Effect(info, fd, pool, Ok)
    else if CanAdd(pool, fd, max) then Effect(info, fd, pool + {fd}, Ok)
    else Effect(info, fd, pool, Failed)
  }

  // ---------------------------------------------------------------- the whole system

  /** Slots with the descriptors of their sockets, the pool of descriptors, the reusable event
      objects and the copies processors work with. */
  datatype System = System(slots: seq<Info>, fds: seq<int>, pool: set<int>, max: nat,
                           events: seq<Option<Snapshot>>, held: seq<Snapshot>)

  datatype Op =
    | Accept(slot: nat, outcome: AcceptOutcome, now: int, fd: int)
    | Release(slot: nat, fromPool: bool, closed: bool)
    | Reset(slot: nat)
    | PoolReady(slot: nat, event: nat, ready: ReadyOutcome)
    | InitEvent(event: nat, about: Option<nat>)
    | FinishEvent(event: nat)
    | Fetch(event: nat)
    | Read(copy: nat, got: ReadOutcome, at: int)
    | Write(copy: nat, written: bool, finished: bool)

  /** The indices an operation mentions exist. A new descriptor is one no slot has open, and only
      a descriptor that is open can be ready. The pool acts on what it saw a moment before, so
      it may report a socket that has left it. */
  predicate InRange(s: System, op: Op) {
    |s.fds| == |s.slots| &&
    match op
    case Accept(i, _, _, fd) => i < |s.slots| && fd >= 0 && fd !in s.fds
    case Release(i, _, _) => i < |s.slots|
    case Reset(i) => i < |s.slots|
    case PoolReady(i, e, ready) => i < |s.slots| && e < |s.events| && (s.fds[i] == CLOSED ==> ready.NotReady? || ready.NoEvent?)
    case InitEvent(e, about) => e < |s.events| && (about.Some? ==> about.value < |s.slots|)
    case FinishEvent(e) => e < |s.events|
    case Fetch(e) => e < |s.events|
    case Read(c, _, _) => c < |s.held| && s.held[c].slot < |s.slots|
    case Write(c, _, _) => c < |s.held| && s.held[c].slot < |s.slots|
  }

  function Copy(s: System, i: nat): Snapshot
    requires i < |s.slots|
  {
    Snapshot(i, s.slots[i])
  }

  function Apply(s: System, i: nat, e: Effect): (System, Answer)
    requires i < |s.slots| == |s.fds|
  {
    (s.(slots := s.slots[i := e.info], fds := s.fds[i := e.fd], pool := e.pool), e.answer)
  }

  /** The pool reports slot i. If the event object cannot be initialised it keeps the copy; if the
      socket has left the pool or the event cannot be queued, the event object is emptied. */
  function ReadyEffect(copy: Snapshot, fd: int, pool: set<int>, max: nat, event: Option<Snapshot>, ready: ReadyOutcome):
    (Option<Snapshot>, set<int>, Answer)
  {
    match ready
    case NotReady => (event, pool, Ok)
    case NoEvent => (event, pool, Failed)
    case InitError => (Some(copy), pool, Failed)
    case NotQueued =>
      (None, if fd in pool && !CanAdd(pool - {fd}, fd, max) then pool - {fd} else pool, Failed)
    case Queued =>
      if fd in pool then (Some(copy), pool - {fd}, Ok) else (None, pool, Failed)
  }

  /** One atomic step. */
  function Next(s: System, op: Op): (System, Answer)
    requires InRange(s, op)
  {
    match op
    case Accept(i, outcome, now, fd) => Apply(s, i, AcceptEffect(s.slots[i], s.fds[i], s.pool, outcome, now, fd))
    case Release(i, fromPool, closed) => Apply(s, i, ReleaseEffect(s.slots[i], s.fds[i], s.pool, fromPool, closed))
    case Reset(i) => (s.(slots := s.slots[i := INACTIVE]), Ok)
    case PoolReady(i, e, ready) =>
      var (event, pool, answer) := ReadyEffect(Copy(s, i), s.fds[i], s.pool, s.max, s.events[e], ready);
      (s.(pool := pool, events := s.events[e := event]), answer)
    case InitEvent(e, about) =>
      (s.(events := s.events[e := if about.Some? then Some(Copy(s, about.value)) else None]), Ok)
    case FinishEvent(e) => (s.(events := s.events[e := None]), Ok)
    case Fetch(e) => if s.events[e].Some? then (s.(held := s.held + [s.events[e].value]), Ok) else (s, Failed)
    case Read(c, outcome, now) =>
      var h := s.held[c];
      Apply(s, h.slot, ReadEffect(s.slots[h.slot], s.fds[h.slot], s.pool, s.max, h.info.start, outcome, now))
    case Write(c, written, finished) =>
      var h := s.held[c];
      Apply(s, h.slot, WriteEffect(s.slots[h.slot], s.fds[h.slot], s.pool, s.max, h.info.start, written, finished))
  }

  function Initial(slots: nat, events: nat, max: nat): System {
    System(seq(slots, i => INACTIVE), seq(slots, i => CLOSED), {}, max, seq(events, i => None), [])
  }

  // ---------------------------------------------------------------- history

  /** What happened to a slot: it was opened, a request was read completely or in part, it ended. */
  datatype Use = Opened(at: int) | Got(at: int) | Ended

  /** The system with its history: the accept times and the uses of every slot, and for every
      snapshot how many connections its slot had accepted when it was taken. */
  datatype Traced = Traced(sys: System, accepts: seq<seq<int>>, uses: seq<seq<Use>>, eventBirth: seq<nat>, heldBirth: seq<nat>)

  function Record(uses: seq<seq<Use>>, i: nat, use: Use): seq<seq<Use>>
    requires i < |uses|
  {
    uses[i := uses[i] + [use]]
  }

  /** The uses after a step: an accepted connection opens its slot; a release that answered Ok, a reset
      and a failed setup end it; a read counts if it answered Ok. */
  function UsesNext(uses: seq<seq<Use>>, s: System, op: Op): (r: seq<seq<Use>>)
    requires InRange(s, op) && |uses| == |s.slots|
    ensures |r| == |uses|
  {
    var ok := Next(s, op).1 == Ok;
    match op
    case Accept(i, outcome, now, _) =>
      if outcome.Accepted? then Record(uses, i, Opened(now))
      else if outcome.SetupError? then Record(uses, i, Ended)
      else uses
    case Release(i, _, _) => if ok then Record(uses, i, Ended) else uses
    case Reset(i) => Record(uses, i, Ended)
    case Read(c, _, at) => if ok then Record(uses, s.held[c].slot, Got(at)) else uses
    case _ => uses
  }

  predicate TracedShape(t: Traced) {
    && |t.accepts| == |t.uses| == |t.sys.slots| == |t.sys.fds|
    && |t.eventBirth| == |t.sys.events|
    && |t.heldBirth| == |t.sys.held|
  }

  function TracedNext(t: Traced, op: Op): (t': Traced)
    requires TracedShape(t) && InRange(t.sys, op)
    ensures t'.sys == Next(t.sys, op).0
  {
    var sys := Next(t.sys, op).0;
    var t := t.(uses := UsesNext(t.uses, t.sys, op));
    match op
    case Accept(i, Accepted, now, _) => t.(sys := sys, accepts := t.accepts[i := t.accepts[i] + [now]])
    case PoolReady(i, e, ready) =>
      if ready.NotReady? || ready.NoEvent? then t.(sys := sys)
      else t.(sys := sys, eventBirth := t.eventBirth[e := |t.accepts[i]|])
    case InitEvent(e, Some(i)) => t.(sys := sys, eventBirth := t.eventBirth[e := |t.accepts[i]|])
    case Fetch(e) =>
      if t.sys.events[e].Some? then t.(sys := sys, heldBirth := t.heldBirth + [t.eventBirth[e]]) else t.(sys := sys)
    case _ => t.(sys := sys)
  }

  function TracedInitial(slots: nat, events: nat, max: nat): Traced {
    Traced(Initial(slots, events, max), seq(slots, i => []), seq(slots, i => []), seq(events, i => 0), [])
  }

  /** t is reached from a fresh system by the operations. */
  ghost predicate Reaches(n: nat, m: nat, max: nat, ops: seq<Op>, t: Traced)
    decreases |ops|
  {
    if ops == [] then t == TracedInitial(n, m, max)
    else
      exists u :: Reaches(n, m, max, ops[..|ops| - 1], u) && TracedShape(u)
                  && InRange(u.sys, ops[|ops| - 1]) && t == TracedNext(u, ops[|ops| - 1])
  }

  // ---------------------------------------------------------------- the invariant

  /** The token of a snapshot is the accept time of the connection it was taken of, unless the
      slot was not active at that moment. */
  predicate Genuine(accepts: seq<seq<int>>, s: Snapshot, birth: nat) {
    && s.slot < |accepts|
    && birth <= |accepts[s.slot]|
    && (s.info.start != 0 ==> birth >= 1 && s.info.start == accepts[s.slot][birth - 1])
  }

  predicate GenuineEvent(t: Traced, e: nat)
    requires TracedShape(t) && e < |t.sys.events|
  {
    t.sys.events[e].Some? ==> Genuine(t.accepts, t.sys.events[e].value, t.eventBirth[e])
  }

  predicate Inv(t: Traced) {
    && TracedShape(t)
    && (forall i: nat :: i < |t.sys.slots| ==> Genuine(t.accepts, Copy(t.sys, i), |t.accepts[i]|))
    && (forall e: nat :: e < |t.sys.events| ==> GenuineEvent(t, e))
    && (forall c: nat :: c < |t.sys.held| ==> Genuine(t.accepts, t.sys.held[c], t.heldBirth[c]))
  }

  lemma InvNext(t: Traced, op: Op)
    requires Inv(t) && InRange(t.sys, op)
    ensures Inv(TracedNext(t, op))
  {
    var t' := TracedNext(t, op);
    SlotsNext(t, op);
    forall e: nat | e < |t'.sys.events|
      ensures GenuineEvent(t', e)
    {
      assert GenuineEvent(t, e);
      EventNext(t, op, e);
    }
    forall c: nat | c < |t'.sys.held|
      ensures Genuine(t'.accepts, t'.sys.held[c], t'.heldBirth[c])
    {
      if c < |t.sys.held| {
        assert Genuine(t.accepts, t.sys.held[c], t.heldBirth[c]);
      } else {
        assert GenuineEvent(t, op.event);
      }
    }
  }

  lemma SlotsNext(t: Traced, op: Op)
    requires Inv(t) && InRange(t.sys, op)
    ensures var t' := TracedNext(t, op);
            forall i: nat :: i < |t'.sys.slots| ==> Genuine(t'.accepts, Copy(t'.sys, i), |t'.accepts[i]|)
  {
    var t' := TracedNext(t, op);
    forall i: nat | i < |t'.sys.slots|
      ensures Genuine(t'.accepts, Copy(t'.sys, i), |t'.accepts[i]|)
    {
      assert Genuine(t.accepts, Copy(t.sys, i), |t.accepts[i]|);
    }
  }

  lemma EventNext(t: Traced, op: Op, e: nat)
    requires Inv(t) && InRange(t.sys, op) && e < |t.sys.events|
    ensures GenuineEvent(TracedNext(t, op), e)
  {
    assert GenuineEvent(t, e);
    match op
    case PoolReady(i, _, _) => assert Genuine(t.accepts, Copy(t.sys, i), |t.accepts[i]|);
    case InitEvent(_, about) =>
      if about.Some? {
        assert Genuine(t.accepts, Copy(t.sys, about.value), |t.accepts[about.value]|);
      }
    case _ =>
  }

  /** The invariant holds in every interleaving. */
  lemma {:induction false} InvReachable(n: nat, m: nat, max: nat, ops: seq<Op>, t: Traced)
    requires Reaches(n, m, max, ops, t)
    ensures Inv(t)
    decreases |ops|
  {
    if ops != [] {
      var u :| Reaches(n, m, max, ops[..|ops| - 1], u) && TracedShape(u)
               && InRange(u.sys, ops[|ops| - 1]) && t == TracedNext(u, ops[|ops| - 1]);
      InvReachable(n, m, max, ops[..|ops| - 1], u);
      InvNext(u, ops[|ops| - 1]);
    }
  }

  // ---------------------------------------------------------------- safety of the token check

  predicate Active(t: Traced, i: nat)
    requires i < |t.sys.slots|
  {
    t.sys.slots[i].start != 0
  }

  /** A read or write with copy c gets past the check, that is, it touches the slot's socket. */
  predicate Passes(t: Traced, c: nat)
    requires c < |t.sys.held| && t.sys.held[c].slot < |t.sys.slots|
  {
    t.sys.held[c].info.start == t.sys.slots[t.sys.held[c].slot].start
  }

  predicate Distinct(times: seq<int>) {
    forall i, j :: 0 <= i < j < |times| ==> times[i] != times[j]
  }

  /** On an active slot the check passes exactly when the accept time of the connection the copy
      was taken of equals the accept time of the slot's current connection. */
  lemma PassesExactly(n: nat, m: nat, max: nat, ops: seq<Op>, t: Traced, c: nat)
    requires Reaches(n, m, max, ops, t) && c < |t.sys.held|
    ensures TracedShape(t)
    ensures var i := t.sys.held[c].slot;
            && i < |t.sys.slots|
            && (Active(t, i) ==>
                  && |t.accepts[i]| >= 1 && t.heldBirth[c] <= |t.accepts[i]|
                  && (Passes(t, c) <==>
                        t.sys.held[c].info.start != 0 && t.heldBirth[c] >= 1
                        && t.accepts[i][t.heldBirth[c] - 1] == t.accepts[i][|t.accepts[i]| - 1]))
  {
    InvReachable(n, m, max, ops, t);
    var i := t.sys.held[c].slot;
    assert Genuine(t.accepts, t.sys.held[c], t.heldBirth[c]);
    assert Genuine(t.accepts, Copy(t.sys, i), |t.accepts[i]|);
  }

  /** If the accept times of a slot are distinct, a copy gets past the check on the active slot
      exactly when it was taken of the current connection while that one was active, no matter
      how often the slot has been reused. */
  lemma TokenIdentifiesConnection(n: nat, m: nat, max: nat, ops: seq<Op>, t: Traced, c: nat)
    requires Reaches(n, m, max, ops, t) && c < |t.sys.held|
    ensures TracedShape(t)
    ensures var i := t.sys.held[c].slot;
            && i < |t.sys.slots|
            && (Active(t, i) && Distinct(t.accepts[i]) ==>
                  (Passes(t, c) <==> t.sys.held[c].info.start != 0 && t.heldBirth[c] == |t.accepts[i]|))
  {
    PassesExactly(n, m, max, ops, t, c);
  }

  // ---------------------------------------------------------------- times

  /** When the connection that is open after these uses was opened. */
  function OpenSince(uses: seq<Use>): Option<int> {
    if uses == [] then None
    else
      match uses[|uses| - 1]
      case Opened(at) => Some(at)
      case Got(_) => OpenSince(uses[..|uses| - 1])
      case Ended => None
  }

  /** The time of the last read of the open connection, or of its acceptance if there was none. */
  function LastUse(uses: seq<Use>): int
    requires OpenSince(uses).Some?
  {
    uses[|uses| - 1].at
  }

  /** The times of a slot are those of its history. */
  predicate TimesAgree(info: Info, uses: seq<Use>) {
    match OpenSince(uses)
    case None => info.start == 0
    case Some(at) => info.start == at && info.lastRead == LastUse(uses)
  }

  predicate AllTimesAgree(t: Traced) {
    TracedShape(t) && forall i: nat :: i < |t.uses| ==> TimesAgree(t.sys.slots[i], t.uses[i])
  }

  lemma OneMoreUse(uses: seq<Use>, use: Use)
    ensures OpenSince(uses + [use]) ==
            match use { case Opened(at) => Some(at) case Got(_) => OpenSince(uses) case Ended => None }
    ensures OpenSince(uses + [use]).Some? ==> LastUse(uses + [use]) == use.at
  {
    assert (uses + [use])[..|uses|] == uses;
  }

  lemma TimesNext(t: Traced, op: Op)
    requires AllTimesAgree(t) && InRange(t.sys, op)
    ensures AllTimesAgree(TracedNext(t, op))
  {
    hide OpenSince;
    SameShape(t, op);
    var t' := TracedNext(t, op);
    forall i: nat | i < |t'.uses|
      ensures TimesAgree(t'.sys.slots[i], t'.uses[i])
    {
      assert TimesAgree(t.sys.slots[i], t.uses[i]);
      OneMoreUse(t.uses[i], Ended);
      if op.Accept? {
        OneMoreUse(t.uses[i], Opened(op.now));
      } else if op.Read? {
        OneMoreUse(t.uses[i], Got(op.at));
      }
    }
  }

  /** In every interleaving an active slot has the time at which its connection was accepted, and the
      time of that connection's last read that answered Ok, or of its acceptance. */
  lemma {:induction false} TimesReached(n: nat, m: nat, max: nat, ops: seq<Op>, t: Traced)
    requires Reaches(n, m, max, ops, t)
    ensures AllTimesAgree(t)
    decreases |ops|
  {
    if ops != [] {
      var u :| Reaches(n, m, max, ops[..|ops| - 1], u) && TracedShape(u)
               && InRange(u.sys, ops[|ops| - 1]) && t == TracedNext(u, ops[|ops| - 1]);
      TimesReached(n, m, max, ops[..|ops| - 1], u);
      TimesNext(u, ops[|ops| - 1]);
    }
  }

  /** A connection is open, and nothing was read from it since `ttl` before now. */
  predicate Unused(uses: seq<Use>, now: int, ttl: int) {
    OpenSince(uses).Some? && OpenSince(uses).value != 0 && now - LastUse(uses) >= ttl
  }

  // ---------------------------------------------------------------- answers and descriptors

  /** Which steps answer Ok. */
  lemma OkExactly(s: System, op: Op)
    requires InRange(s, op)
    ensures Next(s, op).1 == Ok <==>
            match op
            case Accept(_, outcome, _, _) => outcome.Accepted?
            case Release(i, fromPool, closed) => closed && (fromPool ==> s.fds[i] in s.pool)
            case Reset(_) => true
            case PoolReady(i, _, ready) => ready.NotReady? || (ready.Queued? && s.fds[i] in s.pool)
            case InitEvent(_, _) => true
            case FinishEvent(_) => true
            case Fetch(e) => s.events[e].Some?
            case Read(c, got, _) => Current(s, c) && (got.Complete? || (got.BodyTimeout? && HasPlace(s, c)))
            case Write(c, written, finished) => Current(s, c) && written && (finished ==> HasPlace(s, c))
  {
  }

  /** The copy has the start time of its slot. */
  predicate Current(s: System, c: nat)
    requires c < |s.held| && s.held[c].slot < |s.slots|
  {
    s.held[c].info.start == s.slots[s.held[c].slot].start
  }

  /** The socket of the copy's slot is not in the pool, and the pool is not full. */
  predicate HasPlace(s: System, c: nat)
    requires c < |s.held| && s.held[c].slot < |s.fds|
  {
    s.fds[s.held[c].slot] !in s.pool && |s.pool| < s.max
  }

  /** Which steps change a descriptor: accepting, in all cases in which accept() is called, and a
      release that answers Ok. */
  lemma DescriptorChanges(s: System, op: Op, i: nat)
    requires InRange(s, op) && i < |s.fds|
    ensures Next(s, op).0.fds[i] ==
            if op.Accept? && op.slot == i && op.outcome != NotAllowed then
              (if op.outcome.Accepted? || op.outcome == SetupError(false) then op.fd else CLOSED)
            else if op.Release? && op.slot == i && Next(s, op).1 == Ok then CLOSED
            else s.fds[i]
  {
  }

  // ---------------------------------------------------------------- the pool

  /** The steps that put a descriptor into the pool: a finished response, and a read that timed out. */
  lemma PoolGains(s: System, op: Op, fd: int)
    requires InRange(s, op)
    ensures fd in Next(s, op).0.pool && fd !in s.pool <==>
            && (op.Read? || op.Write?)
            && fd == s.fds[s.held[op.copy].slot] && fd !in s.pool && |s.pool| < s.max
            && s.held[op.copy].info.start == s.slots[s.held[op.copy].slot].start
            && (op.Write? ==> op.written && op.finished)
            && (op.Read? ==> op.got.HeaderTimeout? || op.got.BodyTimeout?)
  {
  }

  lemma {:induction false} PoolBoundedReached(n: nat, m: nat, max: nat, ops: seq<Op>, t: Traced)
    requires Reaches(n, m, max, ops, t)
    ensures |t.sys.pool| <= t.sys.max == max
    decreases |ops|
  {
    if ops != [] {
      var u :| Reaches(n, m, max, ops[..|ops| - 1], u) && TracedShape(u)
               && InRange(u.sys, ops[|ops| - 1]) && t == TracedNext(u, ops[|ops| - 1]);
      PoolBoundedReached(n, m, max, ops[..|ops| - 1], u);
      PoolStaysBounded(u.sys, ops[|ops| - 1]);
    }
  }

  lemma PoolStaysBounded(s: System, op: Op)
    requires InRange(s, op) && |s.pool| <= s.max
    ensures |Next(s, op).0.pool| <= s.max == Next(s, op).0.max
  {
    if op.Release? || op.PoolReady? {
      Smaller(s.pool, s.fds[op.slot]);
    }
  }

  lemma Smaller(pool: set<int>, fd: int)
    ensures |pool - {fd}| <= |pool| && (fd in pool ==> |pool - {fd}| < |pool|)
  {
    if fd in pool {
      assert pool == pool - {fd} + {fd};
    } else {
      assert pool - {fd} == pool;
    }
  }

  /** The steps that take one out: a release that asks for it, and a socket that is ready, unless
      its event cannot be queued and the pool takes it back. */
  lemma PoolLoses(s: System, op: Op, fd: int)
    requires InRange(s, op) && fd in s.pool && |s.pool| <= s.max
    ensures fd !in Next(s, op).0.pool <==>
            && (op.Release? || op.PoolReady?) && fd == s.fds[op.slot]
            && (op.Release? ==> op.fromPool)
            && (op.PoolReady? ==> op.ready.Queued?)
  {
    Smaller(s.pool, fd);
  }

  // ---------------------------------------------------------------- slots that are not active

  /** The steps that never leave an inactive slot with an open socket and never copy an inactive slot
      for a new connection: accept times are not zero, the socket of a failed setup is closed,
      and only a slot without an open socket is reset. */
  predicate Careful(s: System, op: Op)
    requires InRange(s, op)
  {
    match op
    case Accept(_, outcome, now, _) => outcome != SetupError(false) && (outcome.Accepted? ==> now != 0)
    case Reset(i) => s.fds[i] == CLOSED
    case InitEvent(_, about) => about.Some? ==> s.slots[about.value].start != 0
    case _ => true
  }

  /** Every step of the run is careful. */
  ghost predicate CarefulRun(n: nat, m: nat, max: nat, ops: seq<Op>) {
    forall k: nat, u :: k < |ops| && Reaches(n, m, max, ops[..k], u) && InRange(u.sys, ops[k]) ==> Careful(u.sys, ops[k])
  }

  predicate NoEmptyTokens(s: System) {
    && |s.fds| == |s.slots|
    && (forall i: nat :: i < |s.slots| && s.fds[i] != CLOSED ==> s.slots[i].start != 0)
    && (forall e: nat :: e < |s.events| && s.events[e].Some? ==> s.events[e].value.info.start != 0)
    && (forall c: nat :: c < |s.held| ==> s.held[c].info.start != 0)
  }

  lemma NoEmptyTokensNext(s: System, op: Op)
    requires NoEmptyTokens(s) && InRange(s, op) && Careful(s, op)
    ensures NoEmptyTokens(Next(s, op).0)
  {
  }

  lemma {:induction false} NoEmptyTokensReached(n: nat, m: nat, max: nat, ops: seq<Op>, t: Traced)
    requires Reaches(n, m, max, ops, t) && CarefulRun(n, m, max, ops)
    ensures NoEmptyTokens(t.sys)
    decreases |ops|
  {
    if ops != [] {
      var k := |ops| - 1;
      var u :| Reaches(n, m, max, ops[..k], u) && TracedShape(u) && InRange(u.sys, ops[k]) && t == TracedNext(u, ops[k]);
      assert forall j: nat :: j < k ==> ops[..k][..j] == ops[..j] && ops[..k][j] == ops[j];
      NoEmptyTokensReached(n, m, max, ops[..k], u);
      NoEmptyTokensNext(u.sys, ops[k]);
    }
  }

  /** In every careful run the check refuses every read and write on a slot that is not active. */
  lemma InactiveSlotRefuses(n: nat, m: nat, max: nat, ops: seq<Op>, t: Traced, op: Op)
    requires Reaches(n, m, max, ops, t) && CarefulRun(n, m, max, ops)
    requires InRange(t.sys, op) && (op.Read? || op.Write?)
    requires t.sys.slots[t.sys.held[op.copy].slot].start == 0
    ensures Next(t.sys, op) == (t.sys, Stale)
  {
    NoEmptyTokensReached(n, m, max, ops, t);
    StaleChangesNothing(t.sys, op);
  }

  /** Stale operations change nothing at all. */
  lemma StaleChangesNothing(s: System, op: Op)
    requires InRange(s, op) && Next(s, op).1 == Stale
    ensures Next(s, op).0 == s
    ensures (op.Read? || op.Write?) && s.held[op.copy].info.start != s.slots[s.held[op.copy].slot].start
  {
    if op.Read? || op.Write? {
      var i := s.held[op.copy].slot;
      assert s.slots[i := s.slots[i]] == s.slots && s.fds[i := s.fds[i]] == s.fds;
    }
  }

  /** A slot is reused by the same accept time: then a copy of the old connection gets through
      to the new one. Start times count whole seconds, so nothing in the protocol prevents it. */
  lemma EqualTimesDefeatTheToken(now: int) returns (ops: seq<Op>, t: Traced)
    requires now != 0
    ensures Reaches(1, 1, 1, ops, t)
    ensures |t.sys.held| == 1 && t.sys.held[0].slot == 0 && |t.sys.slots| == 1 == |t.accepts| == |t.heldBirth|
    ensures Active(t, 0) && Passes(t, 0) && t.heldBirth[0] == 1 && |t.accepts[0]| == 2
  {
    hide Reaches, UsesNext;
    ops, t := [], TracedInitial(1, 1, 1);
    ops, t := Extend(1, 1, 1, ops, t, Accept(0, Accepted, now, 5));
    ops, t := Extend(1, 1, 1, ops, t, InitEvent(0, Some(0)));
    ops, t := Extend(1, 1, 1, ops, t, Fetch(0));
    ops, t := Extend(1, 1, 1, ops, t, Release(0, false, true));
    ops, t := Extend(1, 1, 1, ops, t, Accept(0, Accepted, now, 5));
  }

  /** The remark beside the check, that it covers slots that are not active, fails for a copy
      taken of a slot that was reset while its socket was open. The sweep does that to a slot it
      finds idle but cannot release, because a processor has its socket, and that is already
      among the free ones; here the response is finished between the two. */
  lemma EmptyTokenPasses(now: int) returns (ops: seq<Op>, t: Traced)
    requires now != 0
    ensures Reaches(1, 1, 1, ops, t)
    ensures |t.sys.held| == 2 && t.sys.held[1].slot == 0 && |t.sys.slots| == 1
    ensures !Active(t, 0) && Passes(t, 1)
  {
    hide Reaches, UsesNext;
    ops, t := AnsweredWhileSwept(now);
    ops, t := Extend(1, 1, 1, ops, t, Reset(0));
    ops, t := Extend(1, 1, 1, ops, t, PoolReady(0, 0, Queued));
    ops, t := Extend(1, 1, 1, ops, t, Fetch(0));
  }

  /** The sweep fails to release a slot, and then the response of that slot is finished. */
  lemma AnsweredWhileSwept(now: int) returns (ops: seq<Op>, t: Traced)
    ensures Reaches(1, 1, 1, ops, t) && TracedShape(t)
    ensures t.sys.slots == [Info(now, now)] && t.sys.fds == [5] && t.sys.pool == {5}
    ensures |t.sys.events| == 1 && t.sys.held == [Snapshot(0, Info(now, now))]
  {
    hide Reaches, UsesNext;
    ops, t := [], TracedInitial(1, 1, 1);
    ops, t := Extend(1, 1, 1, ops, t, Accept(0, Accepted, now, 5));
    ops, t := Extend(1, 1, 1, ops, t, InitEvent(0, Some(0)));
    ops, t := Extend(1, 1, 1, ops, t, Fetch(0));
    ops, t := Extend(1, 1, 1, ops, t, Release(0, true, true));
    ops, t := Extend(1, 1, 1, ops, t, Write(0, true, true));
  }

  /** A run leads to one state only, so a run stays careful if the next step is careful there. */
  lemma {:induction false} OneOutcome(n: nat, m: nat, max: nat, ops: seq<Op>, t: Traced, t': Traced)
    requires Reaches(n, m, max, ops, t) && Reaches(n, m, max, ops, t')
    ensures t == t'
    decreases |ops|
  {
    if ops != [] {
      var k := |ops| - 1;
      var u :| Reaches(n, m, max, ops[..k], u) && TracedShape(u) && InRange(u.sys, ops[k]) && t == TracedNext(u, ops[k]);
      var u' :| Reaches(n, m, max, ops[..k], u') && TracedShape(u') && InRange(u'.sys, ops[k]) && t' == TracedNext(u', ops[k]);
      OneOutcome(n, m, max, ops[..k], u, u');
    }
  }

  lemma ExtendCarefully(n: nat, m: nat, max: nat, ops: seq<Op>, t: Traced, op: Op) returns (ops': seq<Op>, t': Traced)
    requires Reaches(n, m, max, ops, t) && TracedShape(t) && InRange(t.sys, op)
    requires CarefulRun(n, m, max, ops) && Careful(t.sys, op)
    ensures Reaches(n, m, max, ops', t') && ops' == ops + [op] && t' == TracedNext(t, op) && TracedShape(t')
    ensures CarefulRun(n, m, max, ops')
  {
    hide Reaches, Careful, InRange;
    ops', t' := Extend(n, m, max, ops, t, op);
    forall k: nat, u | k < |ops'| && Reaches(n, m, max, ops'[..k], u) && InRange(u.sys, ops'[k])
      ensures Careful(u.sys, ops'[k])
    {
      if k < |ops| {
        assert ops'[..k] == ops[..k] && ops'[k] == ops[k];
      } else {
        assert ops'[..k] == ops;
        OneOutcome(n, m, max, ops, u, t);
      }
    }
  }

  /** A careful run to which InactiveSlotRefuses applies: the copy of a connection that is closed
      meanwhile. */
  lemma LateCopyIsRefused(now: int) returns (ops: seq<Op>, t: Traced)
    requires now != 0
    ensures Reaches(1, 1, 1, ops, t) && CarefulRun(1, 1, 1, ops) && TracedShape(t)
    ensures t.sys.held == [Snapshot(0, Info(now, now))] && t.sys.slots == [INACTIVE]
    ensures InRange(t.sys, Write(0, true, true))
  {
    hide Reaches, CarefulRun, UsesNext;
    ops, t := CopiedCarefully(now);
    ops, t := ExtendCarefully(1, 1, 1, ops, t, Release(0, false, true));
  }

  lemma CopiedCarefully(now: int) returns (ops: seq<Op>, t: Traced)
    requires now != 0
    ensures Reaches(1, 1, 1, ops, t) && CarefulRun(1, 1, 1, ops) && TracedShape(t)
    ensures t.sys.held == [Snapshot(0, Info(now, now))] && |t.sys.slots| == 1
  {
    hide Reaches, CarefulRun, UsesNext;
    ops, t := [], TracedInitial(1, 1, 1);
    NothingIsCareful(1, 1, 1);
    ops, t := ExtendCarefully(1, 1, 1, ops, t, Accept(0, Accepted, now, 5));
    ops, t := ExtendCarefully(1, 1, 1, ops, t, InitEvent(0, Some(0)));
    ops, t := ExtendCarefully(1, 1, 1, ops, t, Fetch(0));
  }

  lemma NothingIsCareful(n: nat, m: nat, max: nat)
    ensures Reaches(n, m, max, [], TracedInitial(n, m, max)) && TracedShape(TracedInitial(n, m, max))
    ensures CarefulRun(n, m, max, [])
  {
  }

  // ---------------------------------------------------------------- the sweep

  /** The connection is open and nothing was read for at least `ttl`. */
  predicate Idle(info: Info, now: int, ttl: int) {
    info.start != 0 && now - info.lastRead >= ttl
  }

  /** The system and the free sessions after a part of the sweep, and whether the sweep goes on. */
  datatype Swept = Swept(sys: System, free: set<nat>, goesOn: bool)

  /** The turn of slot i: an idle one is released and becomes free, even if it was not released
      because its socket is not in the pool; one that is free already has its times cleared.
      A socket that cannot be closed ends the sweep. */
  function SweepSlot(s: System, i: nat, now: int, ttl: int, free: set<nat>, closed: bool): (r: Swept)
    requires i < |s.slots| == |s.fds|
    ensures |r.sys.slots| == |s.slots| == |r.sys.fds|
  {
    if !Idle(s.slots[i], now, ttl) then Swept(s, free, true)
    else
      var (released, answer) := Next(s, Release(i, true, closed));
      if answer != Ok && s.fds[i] in s.pool then Swept(released, free, false)
      else if i in free then Swept(Next(released, Reset(i)).0, free, true)
      else Swept(released, free + {i}, true)
  }

  /** The sweep from slot i on, when no other step comes in between. */
  function SweepFrom(s: System, i: nat, now: int, ttl: int, free: set<nat>, closes: seq<bool>): Swept
    requires i <= |s.slots| == |s.fds| == |closes|
    decreases |s.slots| - i
  {
    if i == |s.slots| then Swept(s, free, true)
    else
      var r := SweepSlot(s, i, now, ttl, free, closes[i]);
      if r.goesOn then SweepFrom(r.sys, i + 1, now, ttl, r.free, closes) else r
  }

  /** No two slots have the same open descriptor. */
  predicate OpenDistinct(s: System) {
    && |s.fds| == |s.slots|
    && forall i, j :: 0 <= i < j < |s.fds| && s.fds[i] == s.fds[j] ==> s.fds[i] == CLOSED
  }

  lemma OpenDistinctNext(s: System, op: Op)
    requires OpenDistinct(s) && InRange(s, op)
    ensures OpenDistinct(Next(s, op).0)
  {
  }

  lemma {:induction false} OpenDistinctReached(n: nat, m: nat, max: nat, ops: seq<Op>, t: Traced)
    requires Reaches(n, m, max, ops, t)
    ensures OpenDistinct(t.sys)
    decreases |ops|
  {
    if ops != [] {
      var u :| Reaches(n, m, max, ops[..|ops| - 1], u) && TracedShape(u)
               && InRange(u.sys, ops[|ops| - 1]) && t == TracedNext(u, ops[|ops| - 1]);
      OpenDistinctReached(n, m, max, ops[..|ops| - 1], u);
      OpenDistinctNext(u.sys, ops[|ops| - 1]);
    }
  }

  /** What the sweep makes of slot k, which stands as in `s` before. */
  predicate SweptSlot(s: System, free: set<nat>, k: nat, now: int, ttl: int, r: Swept)
    requires k < |s.slots| == |s.fds| == |r.sys.slots| == |r.sys.fds|
  {
    var idle, waiting := Idle(s.slots[k], now, ttl), s.fds[k] in s.pool;
    && r.sys.slots[k] == (if idle && (waiting || k in free) then INACTIVE else s.slots[k])
    && r.sys.fds[k] == (if idle && waiting then CLOSED else s.fds[k])
    && (k in r.free <==> k in free || idle)
    && (s.fds[k] in r.sys.pool <==> waiting && !idle)
  }

  /** The turn of slot i changes nothing about the other slots. */
  lemma OneSwept(s: System, i: nat, now: int, ttl: int, free: set<nat>)
    requires i < |s.slots| && OpenDistinct(s) && CLOSED !in s.pool
    ensures var one := SweepSlot(s, i, now, ttl, free, true);
            && one.goesOn && OpenDistinct(one.sys) && CLOSED !in one.sys.pool && SweptSlot(s, free, i, now, ttl, one)
            && one.sys.pool <= s.pool && (forall f :: f in s.pool && f != s.fds[i] ==> f in one.sys.pool)
            && one.free <= free + {i} && free <= one.free
            && (forall k: nat :: k < |s.slots| && k != i ==> one.sys.slots[k] == s.slots[k] && one.sys.fds[k] == s.fds[k])
            && one.sys.events == s.events && one.sys.held == s.held
  {
  }

  /** If every socket can be closed, the sweep closes exactly the idle connections whose sockets wait
      in the pool, clears the times of the idle ones that were free already, makes every idle slot
      free, and leaves all the others alone. */
  lemma {:induction false} SweptExactly(s: System, i: nat, now: int, ttl: int, free: set<nat>, closes: seq<bool>)
    requires i <= |s.slots| == |s.fds| == |closes|
    requires OpenDistinct(s) && CLOSED !in s.pool && forall k :: 0 <= k < |closes| ==> closes[k]
    ensures var r := SweepFrom(s, i, now, ttl, free, closes);
            && r.goesOn && |r.sys.slots| == |s.slots| == |r.sys.fds|
            && (forall k: nat :: i <= k < |s.slots| ==> SweptSlot(s, free, k, now, ttl, r))
            && (forall k: nat :: k < i ==> r.sys.slots[k] == s.slots[k] && r.sys.fds[k] == s.fds[k])
            && r.sys.pool <= s.pool && (forall f :: f in s.pool && f !in s.fds[i..] ==> f in r.sys.pool)
            && (forall k: nat :: k < i ==> (k in r.free <==> k in free))
            && r.sys.events == s.events && r.sys.held == s.held
    decreases |s.slots| - i
  {
    hide SweepSlot;
    if i < |s.slots| {
      var one := SweepSlot(s, i, now, ttl, free, closes[i]);
      OneSwept(s, i, now, ttl, free);
      SweptExactly(one.sys, i + 1, now, ttl, one.free, closes);
      var r := SweepFrom(s, i, now, ttl, free, closes);
      forall k: nat | i <= k < |s.slots|
        ensures SweptSlot(s, free, k, now, ttl, r)
      {
        if k > i {
          assert SweptSlot(one.sys, one.free, k, now, ttl, r);
        }
      }
    }
  }

  /** The same in terms of the history of a run: the idle connections are those from which nothing
      was read for `ttl`. */
  lemma SweptByHistory(n: nat, m: nat, max: nat, ops: seq<Op>, t: Traced, now: int, ttl: int, free: set<nat>, closes: seq<bool>)
    requires Reaches(n, m, max, ops, t)
    requires |closes| == |t.sys.slots| && CLOSED !in t.sys.pool && forall k :: 0 <= k < |closes| ==> closes[k]
    ensures TracedShape(t)
    ensures var r := SweepFrom(t.sys, 0, now, ttl, free, closes);
            && |r.sys.slots| == |t.sys.slots| == |r.sys.fds|
            && forall k: nat :: k < |t.sys.slots| ==>
                 var unused, waiting := Unused(t.uses[k], now, ttl), t.sys.fds[k] in t.sys.pool;
                 && r.sys.slots[k] == (if unused && (waiting || k in free) then INACTIVE else t.sys.slots[k])
                 && r.sys.fds[k] == (if unused && waiting then CLOSED else t.sys.fds[k])
                 && (k in r.free <==> k in free || unused)
  {
    TimesReached(n, m, max, ops, t);
    OpenDistinctReached(n, m, max, ops, t);
    SweptExactly(t.sys, 0, now, ttl, free, closes);
    hide Reaches, SweepFrom, OpenDistinct, OpenSince;
    var r := SweepFrom(t.sys, 0, now, ttl, free, closes);
    forall k: nat | k < |t.sys.slots|
      ensures Idle(t.sys.slots[k], now, ttl) <==> Unused(t.uses[k], now, ttl)
      ensures SweptSlot(t.sys, free, k, now, ttl, r)
    {
      assert TimesAgree(t.sys.slots[k], t.uses[k]);
    }
  }

  /** The sweep is a run of releases and resets, so every law about reached states holds after it. */
  lemma {:induction false} SweepIsRun(n: nat, m: nat, max: nat, ops: seq<Op>, t: Traced,
                                      i: nat, now: int, ttl: int, free: set<nat>, closes: seq<bool>)
    returns (ops': seq<Op>, t': Traced)
    requires Reaches(n, m, max, ops, t) && TracedShape(t) && i <= |t.sys.slots| == |closes|
    ensures Reaches(n, m, max, ops', t') && TracedShape(t')
    ensures t'.sys == SweepFrom(t.sys, i, now, ttl, free, closes).sys
    decreases |t.sys.slots| - i
  {
    hide Reaches;
    ops', t' := ops, t;
    if i < |t.sys.slots| {
      var s, r := t.sys, SweepSlot(t.sys, i, now, ttl, free, closes[i]);
      if Idle(s.slots[i], now, ttl) {
        ops', t' := Extend(n, m, max, ops', t', Release(i, true, closes[i]));
        if r.goesOn && i in free {
          ops', t' := Extend(n, m, max, ops', t', Reset(i));
        }
      }
      if r.goesOn {
        ops', t' := SweepIsRun(n, m, max, ops', t', i + 1, now, ttl, r.free, closes);
      }
    }
  }

  lemma Extend(n: nat, m: nat, max: nat, ops: seq<Op>, t: Traced, op: Op) returns (ops': seq<Op>, t': Traced)
    requires Reaches(n, m, max, ops, t) && TracedShape(t) && InRange(t.sys, op)
    ensures Reaches(n, m, max, ops', t') && ops' == ops + [op] && t' == TracedNext(t, op) && TracedShape(t')
  {
    ops', t' := ops + [op], TracedNext(t, op);
    assert ops'[..|ops'| - 1] == ops && ops'[|ops'| - 1] == op;
    SameShape(t, op);
  }

  lemma InitialIsReached(n: nat, m: nat, max: nat)
    ensures Reaches(n, m, max, [], TracedInitial(n, m, max)) && TracedShape(TracedInitial(n, m, max))
  {
  }

  lemma SameShape(t: Traced, op: Op)
    requires TracedShape(t) && InRange(t.sys, op)
    ensures TracedShape(TracedNext(t, op))
  {
  }
}
