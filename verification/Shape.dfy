/** What every step looks like from outside: it belongs to one call, which moves strictly forward. */
module Shape {
  import opened Base
  import opened Domain
  import opened Schema
  import opened Spec
  import opened Protocol

  /** One step of `c`: nobody else moved, the trace grew by one, and `c` is closer to its end. */
  ghost predicate Moves(s: State, s': State, c: CallId) {
    && s'.pool == s.pool
    && s'.trace == s.trace + [Moment(s.db, c)]
    && c in s.calls && c in s'.calls && s'.calls == s.calls[c := s'.calls[c]]
    && s'.calls[c].op == s.calls[c].op
    && Stage(s.calls[c].pc) < Stage(s'.calls[c].pc)
    && (!s.calls[c].pc.AtStart? ==> s'.calls[c].started == s.calls[c].started)
    && (s.calls[c].pc.AtStart? ==> s'.calls[c].started == |s.trace|)
    && (s'.calls[c].pc.Finished? ==> s'.calls[c].ended == |s.trace| + 1)
    && (s.calls[c].op.Create? && !s.calls[c].pc.AtBegin? ==> s'.calls[c].at == s.calls[c].at)
  }

  lemma AdvanceMoves(s: State, base: State, c: CallId, call': Call, db: Tables)
    requires base.db == s.db && base.pool == s.pool && base.calls == s.calls && base.trace == s.trace
    requires c in s.calls && call'.op == s.calls[c].op && Stage(s.calls[c].pc) < Stage(call'.pc)
    requires call'.started == if s.calls[c].pc.AtStart? then |s.trace| else s.calls[c].started
    requires call'.pc.Finished? ==> call'.ended == |s.trace| + 1
    requires s.calls[c].op.Create? && !s.calls[c].pc.AtBegin? ==> call'.at == s.calls[c].at
    ensures Moves(s, Advance(base, c, call', db), c)
  {
  }

  lemma ClaimsOnly(s: State, c: CallId, call: Call, req: Request)
    ensures var base := Claims(s, c, call, req);
      base.db == s.db && base.pool == s.pool && base.calls == s.calls && base.trace == s.trace
    ensures Writes(call.pc) ==> Stage(call.pc) < Stage(After(call, req)) <= 14
  {
  }

  lemma WriteMoves(s: State, c: CallId, call: Call, req: Request)
    requires c in s.calls && call.op == s.calls[c].op && call.op.Create? && call.pc == s.calls[c].pc && Writes(call.pc)
    requires call.started == s.calls[c].started && call.at == s.calls[c].at
    ensures Moves(s, Write(s, c, call, req), c)
  {
    hide Refusal, View, ExecIn, Moves, StatementAt, NewTransfer, Claims, After;
    var s' := Write(s, c, call, req);
    var st := StatementAt(call, req);
    match Refusal(View(s.db, call.ws), st)
    case None =>
      ClaimsOnly(s, c, call, req);
      var accepted := call.(ws := ExecIn(s.db, call.ws, st), pc := After(call, req));
      AdvanceMoves(s, Claims(s, c, call, req), c, accepted, s.db);
    case Some(e) =>
      var refused := s'.calls[c];
      assert s' == Advance(s, c, refused, s.db);
      AdvanceMoves(s, s, c, refused, s.db);
  }

  lemma ReadKeyMoves(s: State, c: CallId, call: Call, req: Request, absent: Call)
    requires c in s.calls && call == s.calls[c] && call.op.Create? && absent.op == call.op
    requires call.pc.AtKeyRead? || call.pc.AtRaceKeyRead?
    requires Stage(call.pc) < Stage(absent.pc) && absent.started == call.started && absent.at == call.at
    requires absent.pc.Finished? ==> absent.ended == |s.trace| + 1
    ensures Moves(s, ReadKey(s, c, call, req, absent), c)
  {
    hide Moves;
    var now := |s.trace|;
    if req.key !in s.db.idem {
      AdvanceMoves(s, s, c, absent, s.db);
    } else if s.db.idem[req.key].hash != call.op.hash {
      AdvanceMoves(s, s, c, End(call, Refused(IdempotencyConflict), Some(now), now), s.db);
    } else {
      AdvanceMoves(s, s, c, call.(pc := AtFetchTransfer(s.db.idem[req.key].transferId), lin := Some(now)), s.db);
    }
  }

  lemma TakeLockMoves(s: State, c: CallId, call: Call, w: WalletId, next: Pc)
    requires c in s.calls && call == s.calls[c] && Stage(call.pc) <= 4
    requires !call.pc.AtStart? && Stage(call.pc) < Stage(next) && !next.Finished?
    ensures Moves(s, TakeLock(s, c, call, w, next), c)
  {
    hide Moves;
    var s' := TakeLock(s, c, call, w, next);
    AdvanceMoves(s, s.(locks := s'.locks), c, s'.calls[c], s.db);
  }

  lemma EndOfTxMoves(s: State, c: CallId, a: Choice)
    requires CanStep(s, c, a) && !a.Crash? && s.calls[c].op.Create?
    requires s.calls[c].pc.AtCommit? || s.calls[c].pc.AtRollBack?
    ensures Moves(s, Step(s, c, a), c)
  {
    hide Moves, NewTransfer, View, Unowned, Write, ReadKey, TakeLock, Apply, OpeningAfter, Reported;
    var s' := Step(s, c, a);
    AdvanceMoves(s, Release(s, c), c, s'.calls[c], s'.db);
  }

  lemma PlainMoves(s: State, c: CallId, a: Choice)
    requires CanStep(s, c, a) && !a.Crash? && s.calls[c].op.Create?
    requires var pc := s.calls[c].pc; pc.AtStart? || pc.AtBegin? || pc.AtFetchTransfer?
    ensures Moves(s, Step(s, c, a), c)
  {
    hide Moves, Validate, View, Write, ReadKey, TakeLock, Apply, Release, Reported, OpeningAfter;
    AdvanceMoves(s, s, c, Step(s, c, a).calls[c], s.db);
  }

  lemma ReadSrcMoves(s: State, c: CallId, a: Choice)
    requires CanStep(s, c, a) && !a.Crash? && s.calls[c].op.Create? && s.calls[c].pc.AtReadSrc?
    ensures Moves(s, Step(s, c, a), c)
  {
    hide Moves, Validate, View, Write, ReadKey, TakeLock, Apply, Release, Reported, OpeningAfter;
    AdvanceMoves(s, s, c, Step(s, c, a).calls[c], s.db);
  }

  lemma ReadDstMoves(s: State, c: CallId, a: Choice)
    requires CanStep(s, c, a) && !a.Crash? && s.calls[c].op.Create? && s.calls[c].pc.AtReadDst?
    ensures Moves(s, Step(s, c, a), c)
  {
    hide Moves, Validate, View, Write, ReadKey, TakeLock, Apply, Release, Reported, OpeningAfter;
    AdvanceMoves(s, s, c, Step(s, c, a).calls[c], s.db);
  }

  lemma StepMoves(s: State, c: CallId, a: Choice)
    requires CanStep(s, c, a)
    ensures Moves(s, Step(s, c, a), c)
  {
    hide Moves, Apply, Write, ReadKey, TakeLock, OpeningAfter, View, Validate, Reported;
    var call, now, s' := s.calls[c], |s.trace|, Step(s, c, a);
    if a.Crash? {
      AdvanceMoves(s, Release(s, c), c, s'.calls[c], s.db);
    } else if !call.op.Create? {
      AdvanceMoves(s, s.(opening := OpeningAfter(s.opening, s.db, call.op)), c, s'.calls[c], s'.db);
    } else if call.pc.AtKeyRead? {
      ReadKeyMoves(s, c, call, call.op.req, call.(pc := AtBegin, keyReadAt := now));
    } else if call.pc.AtRaceKeyRead? {
      ReadKeyMoves(s, c, call, call.op.req, End(call, Nothing, None, now));
    } else if Writes(call.pc) {
      WriteMoves(s, c, if call.pc.AtInsertTransfer? then call.(id := a.id) else call, call.op.req);
    } else if call.pc.AtLockFirst? {
      TakeLockMoves(s, c, call, call.op.first, AtLockSecond);
    } else if call.pc.AtLockSecond? {
      TakeLockMoves(s, c, call, call.op.second, AtReadSrc);
    } else if call.pc.AtCommit? || call.pc.AtRollBack? {
      EndOfTxMoves(s, c, a);
    } else if call.pc.AtReadSrc? {
      ReadSrcMoves(s, c, a);
    } else if call.pc.AtReadDst? {
      ReadDstMoves(s, c, a);
    } else {
      PlainMoves(s, c, a);
    }
  }
}
