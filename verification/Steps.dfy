/** Case by case: every step of the protocol keeps the invariant. */
module Steps {
  import opened Base
  import opened Domain
  import opened Schema
  import opened Spec
  import opened Protocol
  import opened Shape
  import opened Invariant

  // ----- locks and claims after a step of `c` -----

  /** Entries of others are untouched; entries of `c` are right for where `c` now is. */
  ghost predicate OwnersOk(s: State, s': State, c: CallId) {
    && (forall w | w in s'.locks ::
          (s'.locks[w] == c && LockOk(s', w, c)) || (s'.locks[w] != c && Owns(s.locks, w, s'.locks[w])))
    && (forall id | id in s'.ids ::
          (s'.ids[id] == c && IdOk(s', id, c)) || (s'.ids[id] != c && Owns(s.ids, id, s'.ids[id])))
    && (forall k | k in s'.keys ::
          (s'.keys[k] == c && KeyOk(s', k, c)) || (s'.keys[k] != c && Owns(s.keys, k, s'.keys[k])))
    && (forall d | d != c :: SameFor(s.locks, s'.locks, d) && SameFor(s.ids, s'.ids, d) && SameFor(s.keys, s'.keys, d))
  }

  lemma LockTablesKept(s: State, s': State, c: CallId)
    requires LockTablesOk(s) && OwnersOk(s, s', c)
    requires s'.calls.Keys == s.calls.Keys && forall d | d in s.calls && d != c :: s'.calls[d] == s.calls[d]
    ensures LockTablesOk(s')
  {
    forall w | w in s'.locks ensures LockOk(s', w, s'.locks[w]) {
      assert s'.locks[w] != c ==> LockOk(s, w, s.locks[w]);
    }
    forall id | id in s'.ids ensures IdOk(s', id, s'.ids[id]) {
      assert s'.ids[id] != c ==> IdOk(s, id, s.ids[id]);
    }
    forall k | k in s'.keys ensures KeyOk(s', k, s'.keys[k]) {
      assert s'.keys[k] != c ==> KeyOk(s, k, s.keys[k]);
    }
  }

  ghost predicate OnlyTablesOfLocksDiffer(s: State, base: State) {
    base == s.(locks := base.locks, ids := base.ids, keys := base.keys)
  }

  /** What has to be checked about a step of `c` that commits nothing. */
  ghost predicate Fits(s: State, base: State, c: CallId, call': Call) {
    && c in s.calls && OnlyTablesOfLocksDiffer(s, base)
    && OwnersOk(s, Advance(base, c, call', s.db), c)
    && CallOk(Advance(base, c, call', s.db), c, call')
    && (s.calls[c].lin == None || s.calls[c].lin == call'.lin || Idle(s, s.calls[c].lin.value))
  }

  lemma QuietStep(s: State, base: State, c: CallId, call': Call)
    requires Coherent(s) && Fits(s, base, c, call')
    ensures Coherent(Advance(base, c, call', s.db))
  {
    var s' := Advance(base, c, call', s.db);
    LockTablesKept(s, s', c);
    StepKeepsCoherent(s, s', c);
  }

  lemma LocksOfCallStayOk(s: State, call': Call, c: CallId)
    requires LockTablesOk(s) && c in s.calls && s.calls[c].op == call'.op
    requires Stage(s.calls[c].pc) <= Stage(call'.pc) <= 15
    requires 8 <= Stage(s.calls[c].pc) ==> call'.id == s.calls[c].id
    ensures OwnersOk(s, Advance(s, c, call', s.db), c)
  {
    var s' := Advance(s, c, call', s.db);
    forall w | w in s.locks && s.locks[w] == c ensures LockOk(s', w, c) {
      assert LockOk(s, w, c);
    }
    forall id | id in s.ids && s.ids[id] == c ensures IdOk(s', id, c) {
      assert IdOk(s, id, c);
    }
    forall k | k in s.keys && s.keys[k] == c ensures KeyOk(s', k, c) {
      assert KeyOk(s, k, c);
    }
  }

  /** Outside a transaction a call holds nothing. */
  lemma HoldsNothing(s: State, s': State, c: CallId)
    requires LockTablesOk(s) && c in s.calls && !InTx(s.calls[c].pc)
    requires s'.locks == s.locks && s'.ids == s.ids && s'.keys == s.keys
    ensures OwnersOk(s, s', c)
  {
    assert forall w | w in s.locks :: LockOk(s, w, s.locks[w]);
    assert forall id | id in s.ids :: IdOk(s, id, s.ids[id]);
    assert forall k | k in s.keys :: KeyOk(s, k, s.keys[k]);
  }

  lemma ReleaseOwners(s: State, c: CallId, call': Call, db: Tables)
    ensures OwnersOk(s, Advance(Release(s, c), c, call', db), c)
  {
  }

  lemma Unpack(s: State, c: CallId)
    requires Coherent(s) && c in s.calls
    ensures LockTablesOk(s) && CallOk(s, c, s.calls[c])
  {
  }

  // ----- crashes, single statements -----

  lemma CrashFits(s: State, c: CallId, call': Call)
    requires c in s.calls && CallOk(s, c, s.calls[c]) && !s.calls[c].pc.Finished?
    requires var call, now := s.calls[c], |s.trace|;
      call' == End(call.(started := if call.pc.AtStart? then now else call.started), Aborted, None, now)
    ensures Fits(s, Release(s, c), c, call')
  {
    hide Apply;
    ReleaseOwners(s, c, call', s.db);
  }

  lemma SingleStatementDisturbsNobody(s: State, s': State, c: CallId, d: CallId, op: Op)
    requires OwnersOk(s, s', c) && d != c && !op.Create? && s'.db == Apply(s.db, op, 0, 0).db
    ensures Undisturbed(s, s', d)
  {
  }

  lemma SingleStatementKeepsCoherent(s: State, c: CallId, a: Choice)
    requires Coherent(s) && CanStep(s, c, a) && !a.Crash? && !s.calls[c].op.Create?
    ensures Coherent(Step(s, c, a))
  {
    var s' := Step(s, c, a);
    assert !InTx(s.calls[c].pc) && s.calls[c].lin == None by { assert CallOk(s, c, s.calls[c]); }
    ApplyGrows(s.db, s.calls[c].op, 0, 0);
    HoldsNothing(s, s', c);
    LockTablesKept(s, s', c);
    SingleStatementAnswers(s, c, a);
    forall d | d in s.calls && d != c
      ensures Undisturbed(s, s', d)
    {
      SingleStatementDisturbsNobody(s, s', c, d, s.calls[c].op);
    }
    StepKeepsCoherent(s, s', c);
  }

  lemma SingleStatementAnswers(s: State, c: CallId, a: Choice)
    requires CanStep(s, c, a) && !a.Crash? && !s.calls[c].op.Create?
    ensures CallOk(Step(s, c, a), c, Step(s, c, a).calls[c])
  {
    var s', now := Step(s, c, a), |s.trace|;
    assert Hist(s', now) == s.db && Hist(s', now + 1) == s'.db;
  }

  // ----- reading the key -----

  /** The row a replay fetches: what the spec answers at the key read. */
  lemma ReplayIsTheSpec(db: Tables, req: Request, hash: string, id: TransferId, at: Time)
    requires OneRecordEach(db) && Validate(req).None? && req.key in db.idem
    ensures var rec := db.idem[req.key];
      && rec.transferId in db.transfers
      && TransferOnce(db, req, hash, id, at) ==
           Outcome(db, if rec.hash != hash then Refused(IdempotencyConflict) else Moved(db.transfers[rec.transferId]))
  {
  }

  /** A read at step `now` may answer with what the atomic operation answers on the tables it saw. */
  lemma AnswersNow(s: State, s': State, c: CallId, call: Call, answer: Answer)
    requires s'.trace == s.trace + [Moment(s.db, c)] && call.started <= |s.trace|
    requires Apply(s.db, call.op, call.id, call.at) == Outcome(s'.db, answer)
    ensures TakesEffectAt(s', c, call, |s.trace|, answer)
    ensures s'.db == s.db ==> Idle(s', |s.trace|)
  {
    assert Hist(s', |s.trace|) == s.db && Hist(s', |s.trace| + 1) == s'.db;
  }

  lemma KeyAbsentFits(s: State, c: CallId, call': Call, req: Request)
    requires LockTablesOk(s) && c in s.calls && CallOk(s, c, s.calls[c])
    requires IsCreate(s.calls[c].op, req) && s.calls[c].pc.AtKeyRead?
    requires req.key !in s.db.idem && call' == s.calls[c].(pc := AtBegin, keyReadAt := |s.trace|)
    ensures Fits(s, s, c, call')
  {
    hide Apply;
    var s' := Advance(s, c, call', s.db);
    HoldsNothing(s, s', c);
    assert Hist(s', |s.trace|) == s.db && Hist(s', |s.trace| + 1) == s.db;
  }

  lemma KeyConflictFits(s: State, c: CallId, call': Call, req: Request)
    requires LockTablesOk(s) && c in s.calls && CallOk(s, c, s.calls[c])
    requires IsCreate(s.calls[c].op, req) && (s.calls[c].pc.AtKeyRead? || s.calls[c].pc.AtRaceKeyRead?)
    requires call' == End(s.calls[c], Refused(IdempotencyConflict), Some(|s.trace|), |s.trace|)
    requires TransferOnce(s.db, req, call'.op.hash, call'.id, call'.at) == Outcome(s.db, Refused(IdempotencyConflict))
    ensures Fits(s, s, c, call')
  {
    var s' := Advance(s, c, call', s.db);
    HoldsNothing(s, s', c);
    AnswersNow(s, s', c, call', Refused(IdempotencyConflict));
  }

  lemma KeyFoundFits(s: State, c: CallId, call': Call, req: Request, found: TransferId)
    requires LockTablesOk(s) && c in s.calls && CallOk(s, c, s.calls[c])
    requires IsCreate(s.calls[c].op, req) && (s.calls[c].pc.AtKeyRead? || s.calls[c].pc.AtRaceKeyRead?)
    requires call' == s.calls[c].(pc := AtFetchTransfer(found), lin := Some(|s.trace|))
    requires found in s.db.transfers
    requires TransferOnce(s.db, req, call'.op.hash, call'.id, call'.at) == Outcome(s.db, Moved(s.db.transfers[found]))
    ensures Fits(s, s, c, call')
  {
    var s' := Advance(s, c, call', s.db);
    HoldsNothing(s, s', c);
    AnswersNow(s, s', c, call', Moved(s.db.transfers[found]));
  }

  lemma KeyReadFits(s: State, c: CallId, call': Call, req: Request)
    requires LockTablesOk(s) && OneRecordEach(s.db) && c in s.calls && CallOk(s, c, s.calls[c])
    requires IsCreate(s.calls[c].op, req)
    requires s.calls[c].pc.AtKeyRead? || s.calls[c].pc.AtRaceKeyRead?
    requires ReadKey(s, c, s.calls[c], req, s.calls[c].(pc := AtBegin, keyReadAt := |s.trace|))
      == Advance(s, c, call', s.db)
    requires s.calls[c].pc.AtRaceKeyRead? ==> req.key in s.db.idem
    ensures Fits(s, s, c, call')
  {
    var s' := ReadKey(s, c, s.calls[c], req, s.calls[c].(pc := AtBegin, keyReadAt := |s.trace|));
    assert call' == s'.calls[c];
    if req.key in s.db.idem {
      ReplayIsTheSpec(s.db, req, call'.op.hash, call'.id, call'.at);
      if s.db.idem[req.key].hash != call'.op.hash {
        KeyConflictFits(s, c, call', req);
      } else {
        KeyFoundFits(s, c, call', req, s.db.idem[req.key].transferId);
      }
    } else {
      KeyAbsentFits(s, c, call', req);
    }
  }

  /** A call that lost the race for its key finds the winner's record. */
  lemma RaceLoserFindsKey(s: State, c: CallId)
    requires Coherent(s) && c in s.calls && s.calls[c].op.Create? && s.calls[c].pc.AtRaceKeyRead?
    ensures s.calls[c].op.req.key in s.db.idem
  {
    assert CallOk(s, c, s.calls[c]);
  }

  lemma ReadKeyKeepsCoherent(s: State, c: CallId, a: Choice)
    requires Coherent(s) && OneRecordEach(s.db) && CanStep(s, c, a) && !a.Crash? && s.calls[c].op.Create?
    requires s.calls[c].pc.AtKeyRead? || s.calls[c].pc.AtRaceKeyRead?
    ensures Coherent(Step(s, c, a))
  {
    hide Coherent, Fits, OneRecordEach, LockTablesOk, CallOk;
    var call', req := Step(s, c, a).calls[c], s.calls[c].op.req;
    Unpack(s, c);
    if s.calls[c].pc.AtRaceKeyRead? {
      RaceLoserFindsKey(s, c);
    }
    KeyReadFits(s, c, call', req);
    QuietStep(s, s, c, call');
  }

  // ----- other steps outside transactions -----

  lemma StartFits(s: State, c: CallId, call': Call, req: Request)
    requires LockTablesOk(s) && c in s.calls && CallOk(s, c, s.calls[c])
    requires IsCreate(s.calls[c].op, req) && s.calls[c].pc.AtStart?
    requires var call, now := s.calls[c], |s.trace|;
      if Validate(req).Some? then call' == End(call.(started := now), Refused(Validate(req).value), Some(now), now)
      else call' == call.(started := now, pc := AtKeyRead)
    ensures Fits(s, s, c, call')
  {
    var s' := Advance(s, c, call', s.db);
    HoldsNothing(s, s', c);
    if Validate(req).Some? {
      AnswersNow(s, s', c, call', Refused(Validate(req).value));
    }
  }

  lemma BeginFits(s: State, c: CallId, call': Call, req: Request)
    requires LockTablesOk(s) && c in s.calls && CallOk(s, c, s.calls[c])
    requires IsCreate(s.calls[c].op, req) && s.calls[c].pc.AtBegin?
    requires call' == s.calls[c].(pc := AtLockFirst, at := call'.at, ws := NO_WRITES)
    ensures Fits(s, s, c, call')
  {
    hide Apply;
    var s' := Advance(s, c, call', s.db);
    HoldsNothing(s, s', c);
    KeyWasAbsentKept(s, s', c, c, s.calls[c], req);
  }

  lemma FetchFits(s: State, c: CallId, call': Call, req: Request)
    requires LockTablesOk(s) && c in s.calls && CallOk(s, c, s.calls[c])
    requires IsCreate(s.calls[c].op, req) && s.calls[c].pc.AtFetchTransfer?
    requires s.calls[c].pc.found in s.db.transfers
    requires call' == End(s.calls[c], Moved(s.db.transfers[s.calls[c].pc.found]), s.calls[c].lin, |s.trace|)
    ensures Fits(s, s, c, call')
  {
    hide Apply;
    var s' := Advance(s, c, call', s.db);
    HoldsNothing(s, s', c);
    AnswerableKept(s, s', c, c, s.calls[c], call'.pc.answer);
  }

  lemma StartKeepsCoherent(s: State, c: CallId, a: Choice)
    requires Coherent(s) && CanStep(s, c, a) && !a.Crash? && s.calls[c].op.Create? && s.calls[c].pc.AtStart?
    ensures Coherent(Step(s, c, a))
  {
    var call' := Step(s, c, a).calls[c];
    StartFits(s, c, call', s.calls[c].op.req);
    QuietStep(s, s, c, call');
  }

  lemma BeginKeepsCoherent(s: State, c: CallId, a: Choice)
    requires Coherent(s) && CanStep(s, c, a) && !a.Crash? && s.calls[c].op.Create? && s.calls[c].pc.AtBegin?
    ensures Coherent(Step(s, c, a))
  {
    var call' := Step(s, c, a).calls[c];
    BeginFits(s, c, call', s.calls[c].op.req);
    QuietStep(s, s, c, call');
  }

  lemma FetchKeepsCoherent(s: State, c: CallId, a: Choice)
    requires Coherent(s) && CanStep(s, c, a) && !a.Crash? && s.calls[c].op.Create? && s.calls[c].pc.AtFetchTransfer?
    ensures Coherent(Step(s, c, a))
  {
    var call' := Step(s, c, a).calls[c];
    assert CallOk(s, c, s.calls[c]);
    FetchFits(s, c, call', s.calls[c].op.req);
    QuietStep(s, s, c, call');
  }

  // ----- steps inside transactions that write nothing -----

  lemma RollBackFits(s: State, c: CallId, call': Call, req: Request)
    requires c in s.calls && CallOk(s, c, s.calls[c])
    requires IsCreate(s.calls[c].op, req) && s.calls[c].pc.AtRollBack?
    requires call' == match s.calls[c].pc.next
                      case Replayed => s.calls[c].(pc := AtRaceKeyRead)
                      case Give(answer) => End(s.calls[c], answer, s.calls[c].lin, |s.trace|)
    ensures Fits(s, Release(s, c), c, call')
  {
    hide Apply;
    var s' := Advance(Release(s, c), c, call', s.db);
    ReleaseOwners(s, c, call', s.db);
    OutlookKept(s, s', c, c, s.calls[c], req);
  }

  /** A wallet missing now was missing at the fast-path key read, and so was the key. */
  lemma MissingWalletTakesEffectAtKeyRead(s: State, c: CallId, call: Call, req: Request, w: WalletId)
    requires KeyWasAbsent(s, c, call, req) && PastOk(s, call.keyReadAt)
    requires IsCreate(call.op, req) && Validate(req).None?
    requires w in {req.from, req.to} && w !in s.db.wallets
    ensures TakesEffectAt(s, c, call, call.keyReadAt, Refused(NotFound)) && Idle(s, call.keyReadAt)
  {
  }

  lemma MissingWalletFits(s: State, c: CallId, call': Call, req: Request, w: WalletId)
    requires LockTablesOk(s) && c in s.calls && CallOk(s, c, s.calls[c])
    requires IsCreate(s.calls[c].op, req) && 3 <= Stage(s.calls[c].pc) <= 4
    requires PastOk(s, s.calls[c].keyReadAt)
    requires w in {req.from, req.to} && w !in s.db.wallets
    requires call' == s.calls[c].(pc := AtRollBack(Give(Refused(NotFound))), lin := Some(s.calls[c].keyReadAt))
    ensures Fits(s, s, c, call')
  {
    hide Apply;
    var s' := Advance(s, c, call', s.db);
    MissingWalletTakesEffectAtKeyRead(s, c, call', req, w);
    AnswerableKept(s, s', c, c, call', Refused(NotFound));
    KeyWasAbsentKept(s, s', c, c, call', req);
    LocksOfCallStayOk(s, call', c);
  }

  /** What a lock or claim means depends only on where the calls are. */
  lemma OwnershipDependsOnCalls(s0: State, s: State, c: CallId)
    requires s0.calls == s.calls
    ensures forall w :: LockOk(s0, w, c) <==> LockOk(s, w, c)
    ensures forall id :: IdOk(s0, id, c) <==> IdOk(s, id, c)
    ensures forall k :: KeyOk(s0, k, c) <==> KeyOk(s, k, c)
  {
  }

  lemma LockTaken(s: State, s': State, c: CallId, call': Call, req: Request, w: WalletId)
    requires LockTablesOk(s) && c in s.calls && IsCreate(s.calls[c].op, req) && call'.op == s.calls[c].op
    requires s' == Advance(s.(locks := s.locks[w := c]), c, call', s.db) && w !in s.locks
    requires || (s.calls[c].pc.AtLockFirst? && w == s.calls[c].op.first && call'.pc.AtLockSecond?)
             || (s.calls[c].pc.AtLockSecond? && w == s.calls[c].op.second && call'.pc.AtReadSrc?)
    ensures OwnersOk(s, s', c)
  {
    hide LockOk, IdOk, KeyOk, LockTablesOk;
    LocksOfCallStayOk(s, call', c);
    OwnershipDependsOnCalls(Advance(s, c, call', s.db), s', c);
    NewLockOk(s', c, call', w);
  }

  lemma NewLockOk(s: State, c: CallId, call: Call, w: WalletId)
    requires c in s.calls && s.calls[c] == call && call.op.Create?
    requires (w == call.op.first && call.pc.AtLockSecond?) || (w == call.op.second && call.pc.AtReadSrc?)
    ensures LockOk(s, w, c)
  {
  }

  lemma LockedFits(s: State, c: CallId, call': Call, req: Request, w: WalletId)
    requires LockTablesOk(s) && c in s.calls && CallOk(s, c, s.calls[c])
    requires IsCreate(s.calls[c].op, req) && w !in s.locks && w in s.db.wallets
    requires || (s.calls[c].pc.AtLockFirst? && w == s.calls[c].op.first && call' == s.calls[c].(pc := AtLockSecond))
             || (s.calls[c].pc.AtLockSecond? && w == s.calls[c].op.second && call' == s.calls[c].(pc := AtReadSrc))
    ensures Fits(s, s.(locks := s.locks[w := c]), c, call')
  {
    hide Apply, LockTablesOk, Unowned;
    var s' := Advance(s.(locks := s.locks[w := c]), c, call', s.db);
    KeyWasAbsentKept(s, s', c, c, s.calls[c], req);
    LockTaken(s, s', c, call', req, w);
  }

  lemma UnpackPast(s: State, c: CallId)
    requires Coherent(s) && c in s.calls && s.calls[c].op.Create? && 3 <= Stage(s.calls[c].pc) <= 4
    ensures LockTablesOk(s) && CallOk(s, c, s.calls[c]) && PastOk(s, s.calls[c].keyReadAt)
    ensures LocksThePair(s.calls[c].op)
  {
    assert CallOk(s, c, s.calls[c]);
  }

  lemma TakeLockKeepsCoherent(s: State, c: CallId, a: Choice)
    requires Coherent(s) && CanStep(s, c, a) && !a.Crash? && s.calls[c].op.Create?
    requires s.calls[c].pc.AtLockFirst? || s.calls[c].pc.AtLockSecond?
    ensures Coherent(Step(s, c, a))
  {
    hide Coherent, Fits, CallOk, LockTablesOk, PastOk;
    var call, call' := s.calls[c], Step(s, c, a).calls[c];
    var req := call.op.req;
    var w := if call.pc.AtLockFirst? then call.op.first else call.op.second;
    UnpackPast(s, c);
    if w in s.db.wallets {
      LockedFits(s, c, call', req, w);
      QuietStep(s, s.(locks := s.locks[w := c]), c, call');
    } else {
      MissingWalletFits(s, c, call', req, w);
      QuietStep(s, s, c, call');
    }
  }

  /** Both wallets of a request that holds its locks exist. */
  lemma LockedWalletsExist(s: State, c: CallId, call: Call, req: Request)
    requires IsCreate(call.op, req) && LocksThePair(call.op)
    requires Held(s, c, call, req) && 5 <= Stage(call.pc) <= 14
    ensures Owns(s.locks, req.from, c) && req.from in s.db.wallets
    ensures Owns(s.locks, req.to, c) && req.to in s.db.wallets
  {
  }

  lemma ReadFits(s: State, c: CallId, call': Call, req: Request)
    requires LockTablesOk(s) && c in s.calls && CallOk(s, c, s.calls[c])
    requires IsCreate(s.calls[c].op, req)
    requires req.from in s.db.wallets && req.to in s.db.wallets
    requires || (s.calls[c].pc.AtReadSrc? && call' == s.calls[c].(pc := AtReadDst, src := s.db.wallets[req.from]))
             || (s.calls[c].pc.AtReadDst? && call' == s.calls[c].(pc := AtInsertTransfer, dst := s.db.wallets[req.to]))
    ensures Fits(s, s, c, call')
  {
    hide Apply;
    var s' := Advance(s, c, call', s.db);
    KeyWasAbsentKept(s, s', c, c, s.calls[c], req);
    LocksOfCallStayOk(s, call', c);
  }

  lemma ReadKeepsCoherent(s: State, c: CallId, a: Choice)
    requires Coherent(s) && CanStep(s, c, a) && !a.Crash? && s.calls[c].op.Create?
    requires s.calls[c].pc.AtReadSrc? || s.calls[c].pc.AtReadDst?
    ensures Coherent(Step(s, c, a))
  {
    var call, call' := s.calls[c], Step(s, c, a).calls[c];
    var req := call.op.req;
    assert CallOk(s, c, call);
    LockedWalletsExist(s, c, call, req);
    assert call.ws == NO_WRITES;
    NothingWrittenNothingSeen(s.db);
    ReadFits(s, c, call', req);
    QuietStep(s, s, c, call');
  }

  // ----- writes -----

  /** A claim can only be refused because the winner has committed. */
  lemma ClaimRefusedMeansCommitted(s: State, c: CallId, call: Call, req: Request)
    requires CallOk(s, c, call) && IsCreate(call.op, req) && call.pc.AtClaimKey?
    requires Refusal(View(s.db, call.ws), StatementAt(call, req)).Some?
    ensures req.key in s.db.idem
    ensures Refusal(View(s.db, call.ws), StatementAt(call, req)) == Some(UniqueViolation)
  {
  }

  ghost predicate WriteRefused(db: Tables, call: Call, req: Request)
    requires IsCreate(call.op, req)
  {
    Refusal(View(db, call.ws), StatementAt(call, req)).Some?
  }

  /** Under the locks, with the row inserted, debits and state changes cannot be refused. */
  lemma DebitAndStateAccepted(db: Tables, call: Call, req: Request)
    requires IsCreate(call.op, req) && Local(call, req) && ReadsCurrent(db, call, req)
    requires call.pc.AtMarkFailed? || call.pc.AtDebitSrc? || call.pc.AtMarkProcessed?
    ensures !WriteRefused(db, call, req)
  {
  }

  lemma EntriesAccepted(db: Tables, call: Call, req: Request)
    requires IsCreate(call.op, req) && Local(call, req) && ReadsCurrent(db, call, req)
    requires call.pc.AtWriteDebit? || call.pc.AtWriteCredit?
    requires forall i | 0 <= i < |db.ledger| :: db.ledger[i].transferId != call.id
    ensures !WriteRefused(db, call, req)
  {
    hide WrapAdd, WrapSub;
  }

  /** Only the credit can be refused, by the CHECK, and exactly when the atomic operation refuses. */
  lemma CreditRefused(db: Tables, call: Call, req: Request)
    requires IsCreate(call.op, req) && Local(call, req) && ReadsCurrent(db, call, req) && call.pc.AtCreditDst?
    requires call.dst >= 0 && call.id !in db.transfers && req.key !in db.idem
    ensures WriteRefused(db, call, req) <==> call.dst + req.amount > MAX_INT64
    ensures WriteRefused(db, call, req) ==> RefusedAsTheSpecSays(db, call, req)
  {
    WrappedSumIsNegativeIffOverflow(call.dst, req.amount);
  }

  ghost predicate RefusedAsTheSpecSays(db: Tables, call: Call, req: Request)
    requires IsCreate(call.op, req)
  {
    && Refusal(View(db, call.ws), StatementAt(call, req)) == Some(CheckViolation)
    && TransferOnce(db, req, call.op.hash, call.id, call.at) == Outcome(db, Refused(Store(CheckViolation)))
  }

  /** Once the key is claimed the schema refuses exactly one write, the credit of a sum beyond int64, and there the
      atomic operation refuses with the same error. */
  lemma RefusedWrite(s: State, c: CallId, call: Call, req: Request)
    requires SchemaOk(s.db) && CallOk(s, c, call) && IsCreate(call.op, req) && 9 <= Stage(call.pc) <= 13
    ensures WriteRefused(s.db, call, req) <==> call.pc.AtCreditDst? && call.dst + req.amount > MAX_INT64
    ensures WriteRefused(s.db, call, req) ==> RefusedAsTheSpecSays(s.db, call, req)
  {
    hide WriteRefused, RefusedAsTheSpecSays, Outlook, Local, TransferOnce, Refusal, View, StatementAt;
    NoEntriesYet(s.db, call.id);
    if call.pc.AtCreditDst? {
      CreditedBalanceIsNotNegative(s, c, call, req);
      CreditRefused(s.db, call, req);
    } else if call.pc.AtWriteDebit? || call.pc.AtWriteCredit? {
      EntriesAccepted(s.db, call, req);
    } else {
      DebitAndStateAccepted(s.db, call, req);
    }
  }

  ghost predicate WriteExtends(db: Tables, call: Call, req: Request)
    requires IsCreate(call.op, req)
  {
    && Refusal(View(db, call.ws), StatementAt(call, req)).None?
    && ExecIn(db, call.ws, StatementAt(call, req)) == Written(call.(pc := After(call, req)), req)
  }

  lemma AcceptedInsert(db: Tables, call: Call, req: Request)
    requires IsCreate(call.op, req)
    requires 7 <= Stage(call.pc) <= 8 && call.ws == Written(call, req)
    requires Refusal(View(db, call.ws), StatementAt(call, req)).None?
    ensures WriteExtends(db, call, req)
  {
  }

  lemma AcceptedBalance(db: Tables, call: Call, req: Request)
    requires IsCreate(call.op, req)
    requires call.pc.AtDebitSrc? || call.pc.AtCreditDst?
    requires call.ws == Written(call, req) && call.src >= req.amount
    requires Refusal(View(db, call.ws), StatementAt(call, req)).None?
    ensures WriteExtends(db, call, req)
  {
  }

  lemma AcceptedEntry(db: Tables, call: Call, req: Request)
    requires IsCreate(call.op, req)
    requires 11 <= Stage(call.pc) <= 12 && call.ws == Written(call, req) && call.src >= req.amount
    requires Refusal(View(db, call.ws), StatementAt(call, req)).None?
    ensures WriteExtends(db, call, req)
  {
    var entries := Entries(Reported(call, req));
    assert [] + [entries[0]] == entries[..1] && entries[..1] + [entries[1]] == entries;
  }

  lemma AcceptedFinalState(db: Tables, call: Call, req: Request)
    requires IsCreate(call.op, req)
    requires call.pc.AtMarkFailed? || call.pc.AtMarkProcessed?
    requires call.ws == Written(call, req) && (call.pc.AtMarkFailed? <==> call.src < req.amount)
    requires Refusal(View(db, call.ws), StatementAt(call, req)).None?
    ensures WriteExtends(db, call, req)
  {
    hide WrapAdd, WrapSub, Entries;
  }

  /** An accepted write extends the private writes as the next program point expects. */
  lemma AcceptedWrite(db: Tables, call: Call, req: Request)
    requires IsCreate(call.op, req)
    requires Writes(call.pc) && call.ws == Written(call, req) && BranchOk(call, req)
    requires Refusal(View(db, call.ws), StatementAt(call, req)).None?
    ensures WriteExtends(db, call, req)
  {
    if Stage(call.pc) <= 8 {
      AcceptedInsert(db, call, req);
    } else if call.pc.AtDebitSrc? || call.pc.AtCreditDst? {
      AcceptedBalance(db, call, req);
    } else if call.pc.AtMarkFailed? || call.pc.AtMarkProcessed? {
      AcceptedFinalState(db, call, req);
    } else {
      AcceptedEntry(db, call, req);
    }
  }

  lemma CreditFits(call: Call, req: Request, db: Tables)
    requires IsCreate(call.op, req)
    requires call.pc.AtCreditDst? && call.src >= req.amount > 0 && call.dst >= 0
    requires Refusal(View(db, call.ws), StatementAt(call, req)).None?
    ensures call.dst + req.amount <= MAX_INT64
  {
    WrappedSumIsNegativeIffOverflow(call.dst, req.amount);
  }

  /** The call as it sends its next write: the uuid is drawn just before the first one. */
  ghost predicate Sends(s: State, c: CallId, call: Call, req: Request) {
    && c in s.calls && IsCreate(s.calls[c].op, req) && Writes(s.calls[c].pc)
    && call == (if s.calls[c].pc.AtInsertTransfer? then s.calls[c].(id := call.id) else s.calls[c])
    && (call.pc.AtInsertTransfer? ==> call.id !in s.ids)
    && (call.pc.AtClaimKey? ==> req.key !in s.keys)
  }

  lemma UuidClaimed(s: State, c: CallId, call': Call)
    requires LockTablesOk(s) && c in s.calls && s.calls[c].op == call'.op && call'.op.Create?
    requires s.calls[c].pc.AtInsertTransfer? && call'.pc.AtClaimKey? && call'.id !in s.ids
    ensures OwnersOk(s, Advance(s.(ids := s.ids[call'.id := c]), c, call', s.db), c)
  {
    var s0, s' := Advance(s, c, call', s.db), Advance(s.(ids := s.ids[call'.id := c]), c, call', s.db);
    LocksOfCallStayOk(s, call', c);
    OwnershipDependsOnCalls(s0, s', c);
    assert IdOk(s', call'.id, c);
    hide LockOk, IdOk, KeyOk;
  }

  lemma KeyClaimed(s: State, c: CallId, call': Call, req: Request)
    requires LockTablesOk(s) && c in s.calls
    requires s.calls[c].op == call'.op && IsCreate(call'.op, req) && call'.id == s.calls[c].id
    requires s.calls[c].pc.AtClaimKey? && Stage(call'.pc) == 9 && req.key !in s.keys
    ensures OwnersOk(s, Advance(s.(keys := s.keys[req.key := c]), c, call', s.db), c)
  {
    var s0, s' := Advance(s, c, call', s.db), Advance(s.(keys := s.keys[req.key := c]), c, call', s.db);
    LocksOfCallStayOk(s, call', c);
    OwnershipDependsOnCalls(s0, s', c);
    assert KeyOk(s', req.key, c);
    hide LockOk, IdOk, KeyOk;
  }

  lemma ClaimOwners(s: State, c: CallId, call: Call, call': Call, req: Request)
    requires LockTablesOk(s) && Sends(s, c, call, req)
    requires call' == call.(ws := call'.ws, pc := After(call, req))
    ensures OwnersOk(s, Advance(Claims(s, c, call, req), c, call', s.db), c)
  {
    if call.pc.AtInsertTransfer? {
      UuidClaimed(s, c, call');
    } else if call.pc.AtClaimKey? {
      KeyClaimed(s, c, call', req);
    } else {
      LocksOfCallStayOk(s, call', c);
    }
  }

  /** Accepted inserts prove their keys new. */
  lemma AcceptedInsertsAreNew(db: Tables, call: Call, req: Request)
    requires IsCreate(call.op, req)
    requires Refusal(View(db, call.ws), StatementAt(call, req)).None?
    ensures call.pc.AtInsertTransfer? ==> call.id !in db.transfers
    ensures call.pc.AtClaimKey? ==> req.key !in db.idem
  {
  }

  lemma AcceptedHolds(s: State, s': State, c: CallId, call: Call, call': Call, req: Request)
    requires Sends(s, c, call, req) && Held(s, c, s.calls[c], req)
    requires call' == call.(ws := call'.ws, pc := After(call, req))
    requires s' == Advance(Claims(s, c, call, req), c, call', s.db)
    requires Refusal(View(s.db, call.ws), StatementAt(call, req)).None?
    ensures Held(s', c, call', req)
  {
    hide Apply, Refusal, View, StatementAt, Validate;
    AcceptedInsertsAreNew(s.db, call, req);
  }

  lemma AcceptedBranch(s: State, c: CallId, call: Call, call': Call, req: Request)
    requires Sends(s, c, call, req) && ReadsCurrent(s.db, s.calls[c], req) && Local(s.calls[c], req)
    requires call.pc.AtCreditDst? ==> call.dst >= 0
    requires call' == call.(ws := call'.ws, pc := After(call, req))
    requires Refusal(View(s.db, call.ws), StatementAt(call, req)).None?
    ensures ReadsCurrent(s.db, call', req) && BranchOk(call', req)
  {
    hide Apply;
    if call.pc.AtCreditDst? {
      CreditFits(call, req, s.db);
    }
  }

  lemma AcceptedOutlook(s: State, s': State, c: CallId, call: Call, call': Call, req: Request)
    requires Sends(s, c, call, req) && Outlook(s, c, s.calls[c], req)
    requires call' == call.(ws := call'.ws, pc := After(call, req))
    requires s'.trace == s.trace + [Moment(s.db, c)] && s'.db == s.db
    ensures Outlook(s', c, call', req) && call'.lin == s.calls[c].lin
  {
    hide Apply;
    KeyWasAbsentKept(s, s', c, c, s.calls[c], req);
  }

  lemma AcceptedFits(s: State, c: CallId, call: Call, call': Call, req: Request)
    requires LockTablesOk(s) && Sends(s, c, call, req) && CallOk(s, c, s.calls[c])
    requires call.pc.AtCreditDst? ==> call.dst >= 0
    requires Refusal(View(s.db, call.ws), StatementAt(call, req)).None?
    requires call' == call.(ws := ExecIn(s.db, call.ws, StatementAt(call, req)), pc := After(call, req))
    ensures Fits(s, Claims(s, c, call, req), c, call')
  {
    hide LockTablesOk, Held, ReadsCurrent, BranchOk, Outlook, OwnersOk, Refusal, StatementAt, ExecIn, View, Apply;
    var s' := Advance(Claims(s, c, call, req), c, call', s.db);
    ClaimOwners(s, c, call, call', req);
    AcceptedHolds(s, s', c, call, call', req);
    AcceptedBranch(s, c, call, call', req);
    AcceptedOutlook(s, s', c, call, call', req);
    AcceptedWrite(s.db, call, req);
  }

  lemma RaceLostFits(s: State, c: CallId, call': Call, req: Request)
    requires LockTablesOk(s) && c in s.calls && CallOk(s, c, s.calls[c])
    requires IsCreate(s.calls[c].op, req) && s.calls[c].pc.AtClaimKey? && req.key in s.db.idem
    requires call' == s.calls[c].(pc := AtRollBack(Replayed))
    ensures Fits(s, s, c, call')
  {
    hide Apply;
    var s' := Advance(s, c, call', s.db);
    KeyWasAbsentKept(s, s', c, c, s.calls[c], req);
    LocksOfCallStayOk(s, call', c);
  }

  lemma UuidCollisionFits(s: State, c: CallId, call': Call, req: Request)
    requires LockTablesOk(s) && c in s.calls && CallOk(s, c, s.calls[c])
    requires IsCreate(s.calls[c].op, req) && s.calls[c].pc.AtInsertTransfer?
    requires call' == s.calls[c].(id := call'.id, pc := AtRollBack(Give(Refused(Store(UniqueViolation)))), lin := None)
    ensures Fits(s, s, c, call')
  {
    hide Apply;
    var s' := Advance(s, c, call', s.db);
    KeyWasAbsentKept(s, s', c, c, s.calls[c], req);
    LocksOfCallStayOk(s, call', c);
  }

  lemma OverflowFits(s: State, c: CallId, call': Call, req: Request)
    requires LockTablesOk(s) && c in s.calls && CallOk(s, c, s.calls[c])
    requires IsCreate(s.calls[c].op, req) && 9 <= Stage(s.calls[c].pc) <= 13
    requires TransferOnce(s.db, req, s.calls[c].op.hash, s.calls[c].id, s.calls[c].at)
      == Outcome(s.db, Refused(Store(CheckViolation)))
    requires call' == s.calls[c].(pc := AtRollBack(Give(Refused(Store(CheckViolation)))), lin := Some(|s.trace|))
    ensures Fits(s, s, c, call')
  {
    hide TransferOnce, Written, LexLess;
    var s' := Advance(s, c, call', s.db);
    KeyWasAbsentKept(s, s', c, c, s.calls[c], req);
    LocksOfCallStayOk(s, call', c);
    AnswersNow(s, s', c, call', Refused(Store(CheckViolation)));
  }

  /** The only ways an INSERT of the PENDING row can fail under the locks. */
  lemma InsertRefusedMeansCollision(s: State, c: CallId, call: Call, req: Request)
    requires c in s.calls && CallOk(s, c, s.calls[c]) && IsCreate(s.calls[c].op, req) && s.calls[c].pc.AtInsertTransfer?
    requires call == s.calls[c].(id := call.id)
    requires Refusal(View(s.db, call.ws), StatementAt(call, req)).Some?
    ensures Refusal(View(s.db, call.ws), StatementAt(call, req)) == Some(UniqueViolation)
  {
    LockedWalletsExist(s, c, s.calls[c], req);
  }

  lemma RefusedFits(s: State, c: CallId, call: Call, call': Call, req: Request)
    requires LockTablesOk(s) && SchemaOk(s.db) && Sends(s, c, call, req) && CallOk(s, c, s.calls[c])
    requires Refusal(View(s.db, call.ws), StatementAt(call, req)).Some?
    requires Write(s, c, call, req) == Advance(s, c, call', s.db)
    ensures Fits(s, s, c, call')
  {
    assert call' == Write(s, c, call, req).calls[c];
    if call.pc.AtInsertTransfer? {
      InsertRefusedMeansCollision(s, c, call, req);
      UuidCollisionFits(s, c, call', req);
    } else if call.pc.AtClaimKey? {
      ClaimRefusedMeansCommitted(s, c, call, req);
      RaceLostFits(s, c, call', req);
    } else {
      RefusedWrite(s, c, call, req);
      OverflowFits(s, c, call', req);
    }
  }

  lemma CreditedBalanceIsNotNegative(s: State, c: CallId, call: Call, req: Request)
    requires SchemaOk(s.db) && ReadsCurrent(s.db, call, req) && call.pc.AtCreditDst?
    ensures call.dst >= 0
  {
  }

  lemma AcceptedKeepsCoherent(s: State, c: CallId, call: Call, req: Request)
    requires Coherent(s) && Sends(s, c, call, req)
    requires call.pc.AtCreditDst? ==> call.dst >= 0
    requires Refusal(View(s.db, call.ws), StatementAt(call, req)).None?
    ensures Coherent(Write(s, c, call, req))
  {
    var call' := Write(s, c, call, req).calls[c];
    AcceptedFits(s, c, call, call', req);
    QuietStep(s, Claims(s, c, call, req), c, call');
  }

  lemma UnpackReads(s: State, c: CallId, call: Call, req: Request)
    requires Coherent(s) && Sends(s, c, call, req)
    ensures LockTablesOk(s) && CallOk(s, c, s.calls[c])
    ensures call.pc.AtCreditDst? ==> ReadsCurrent(s.db, call, req)
  {
    assert CallOk(s, c, s.calls[c]);
  }

  lemma WriteKeepsCoherent(s: State, c: CallId, call: Call, req: Request)
    requires Coherent(s) && SchemaOk(s.db) && Sends(s, c, call, req)
    ensures Coherent(Write(s, c, call, req))
  {
    hide Coherent, Fits, LockTablesOk, CallOk, SchemaOk, ReadsCurrent;
    hide Refusal, StatementAt, ExecIn, View, After, Claims;
    UnpackReads(s, c, call, req);
    if Refusal(View(s.db, call.ws), StatementAt(call, req)).None? {
      if call.pc.AtCreditDst? {
        CreditedBalanceIsNotNegative(s, c, call, req);
      }
      AcceptedKeepsCoherent(s, c, call, req);
    } else {
      var call' := Write(s, c, call, req).calls[c];
      RefusedFits(s, c, call, call', req);
      QuietStep(s, s, c, call');
    }
  }

  // ----- commit -----

  lemma CommitFailedIsTheSpec(db: Tables, call: Call, req: Request)
    requires IsCreate(call.op, req)
    requires call.pc.AtCommit? && ReadsCurrent(db, call, req) && Validate(req).None? && call.ws == Written(call, req)
    requires call.id !in db.transfers && req.key !in db.idem && call.src < req.amount
    ensures TransferOnce(db, req, call.op.hash, call.id, call.at)
      == Outcome(View(db, call.ws), Moved(Reported(call, req)))
  {
    var spec, view := TransferOnce(db, req, call.op.hash, call.id, call.at).db, View(db, call.ws);
    assert view.wallets == spec.wallets && view.ledger == spec.ledger;
    assert view.transfers == spec.transfers && view.idem == spec.idem;
  }

  lemma CommitProcessedIsTheSpec(db: Tables, call: Call, req: Request)
    requires IsCreate(call.op, req)
    requires call.pc.AtCommit? && ReadsCurrent(db, call, req) && Validate(req).None? && call.ws == Written(call, req)
    requires call.id !in db.transfers && req.key !in db.idem
    requires call.src >= req.amount && call.dst >= 0 && call.dst + req.amount <= MAX_INT64
    ensures TransferOnce(db, req, call.op.hash, call.id, call.at)
      == Outcome(View(db, call.ws), Moved(Reported(call, req)))
  {
    WrappedSumIsNegativeIffOverflow(call.dst, req.amount);
    var w1, w2 := db.wallets[req.from] - req.amount, db.wallets[req.to] + req.amount;
    var t := Reported(call, req);
    assert call.ws.wallets == map[req.from := w1, req.to := w2];
    assert db.wallets + call.ws.wallets == db.wallets[req.from := w1][req.to := w2];
    assert db.transfers + map[call.id := t] == db.transfers[call.id := t];
    assert db.idem + call.ws.idem == db.idem[req.key := IdempotencyRecord(call.op.hash, call.id)];
  }

  /** Writing the absolute values read earlier is the atomic transfer on the tables as they are now. */
  lemma CommitIsTheSpec(db: Tables, call: Call, req: Request)
    requires IsCreate(call.op, req)
    requires call.pc.AtCommit? && ReadsCurrent(db, call, req) && Local(call, req)
    requires SchemaOk(db) && call.id !in db.transfers && req.key !in db.idem
    ensures TransferOnce(db, req, call.op.hash, call.id, call.at)
      == Outcome(View(db, call.ws), Moved(Reported(call, req)))
  {
    if call.src < req.amount {
      CommitFailedIsTheSpec(db, call, req);
    } else {
      CommitProcessedIsTheSpec(db, call, req);
    }
  }

  lemma CommitWritesOnlyWhatIsHeld(call: Call, req: Request)
    requires IsCreate(call.op, req)
    requires call.pc.AtCommit? && call.ws == Written(call, req)
    ensures call.ws.wallets.Keys <= {req.from, req.to}
    ensures call.ws.transfers.Keys == {call.id} && call.ws.idem.Keys == {req.key}
  {
  }

  lemma CommitDisturbsNobody(s: State, s': State, c: CallId, d: CallId, call: Call, req: Request)
    requires d != c && OwnersOk(s, s', c) && s'.db == View(s.db, call.ws)
    requires call.ws.wallets.Keys <= {req.from, req.to}
    requires call.ws.transfers.Keys == {call.id} && call.ws.idem.Keys == {req.key}
    requires Owns(s.locks, req.from, c) && Owns(s.locks, req.to, c)
    requires Owns(s.ids, call.id, c) && Owns(s.keys, req.key, c)
    ensures Undisturbed(s, s', d)
  {
  }

  lemma CommitAnswers(s: State, s': State, c: CallId, call: Call, call': Call, req: Request, answer: Answer)
    requires CallOk(s, c, call) && IsCreate(call.op, req) && call.pc.AtCommit?
    requires TransferOnce(s.db, req, call.op.hash, call.id, call.at) == Outcome(s'.db, Moved(Reported(call, req)))
    requires s'.trace == s.trace + [Moment(s.db, c)]
    requires answer == Unknown || answer == Moved(Reported(call, req))
    requires call' == End(call, answer, Some(|s.trace|), |s.trace|)
    ensures CallOk(s', c, call')
  {
    AnswersNow(s, s', c, call', Moved(Reported(call, req)));
  }

  lemma CommitKeepsCoherent(s: State, c: CallId, a: Choice)
    requires Coherent(s) && SchemaOk(s.db) && CanStep(s, c, a) && !a.Crash?
    requires s.calls[c].op.Create? && s.calls[c].pc.AtCommit?
    ensures Coherent(Step(s, c, a))
    ensures Step(s, c, a).db == Apply(s.db, s.calls[c].op, s.calls[c].id, s.calls[c].at).db
  {
    hide SchemaOk, OwnersOk, Grows, Undisturbed, LockTablesOk;
    var call, s' := s.calls[c], Step(s, c, a);
    var req := call.op.req;
    assert CallOk(s, c, call);
    CommitIsTheSpec(s.db, call, req);
    ApplyGrows(s.db, call.op, call.id, call.at);
    ReleaseOwners(s, c, s'.calls[c], s'.db);
    LockTablesKept(s, s', c);
    CommitAnswers(s, s', c, call, s'.calls[c], req, s'.calls[c].pc.answer);
    LockedWalletsExist(s, c, call, req);
    CommitWritesOnlyWhatIsHeld(call, req);
    forall d | d in s.calls && d != c
      ensures Undisturbed(s, s', d)
    {
      CommitDisturbsNobody(s, s', c, d, call, req);
    }
    StepKeepsCoherent(s, s', c);
  }

  // ----- all steps -----

  lemma CreateStepKeepsCoherent(s: State, c: CallId, a: Choice)
    requires Coherent(s) && SchemaOk(s.db) && OneRecordEach(s.db)
    requires CanStep(s, c, a) && !a.Crash? && s.calls[c].op.Create? && !s.calls[c].pc.AtCommit?
    ensures Coherent(Step(s, c, a))
  {
    hide Coherent, SchemaOk, OneRecordEach, Step;
    var pc := s.calls[c].pc;
    if pc.AtStart? {
      StartKeepsCoherent(s, c, a);
    } else if pc.AtKeyRead? || pc.AtRaceKeyRead? {
      ReadKeyKeepsCoherent(s, c, a);
    } else if pc.AtBegin? {
      BeginKeepsCoherent(s, c, a);
    } else if pc.AtLockFirst? || pc.AtLockSecond? {
      TakeLockKeepsCoherent(s, c, a);
    } else if pc.AtReadSrc? || pc.AtReadDst? {
      ReadKeepsCoherent(s, c, a);
    } else if pc.AtRollBack? {
      RollBackKeepsCoherent(s, c, a);
    } else if pc.AtFetchTransfer? {
      FetchKeepsCoherent(s, c, a);
    } else {
      WriteStepKeepsCoherent(s, c, a);
    }
  }

  lemma WriteStepKeepsCoherent(s: State, c: CallId, a: Choice)
    requires Coherent(s) && SchemaOk(s.db) && CanStep(s, c, a) && !a.Crash? && s.calls[c].op.Create?
    requires Writes(s.calls[c].pc)
    ensures Coherent(Step(s, c, a))
  {
    hide Coherent, SchemaOk, Write;
    var call, req := s.calls[c], s.calls[c].op.req;
    WriteKeepsCoherent(s, c, if call.pc.AtInsertTransfer? then call.(id := a.id) else call, req);
  }

  lemma RollBackKeepsCoherent(s: State, c: CallId, a: Choice)
    requires Coherent(s) && CanStep(s, c, a) && !a.Crash? && s.calls[c].op.Create? && s.calls[c].pc.AtRollBack?
    ensures Coherent(Step(s, c, a))
  {
    var call' := Step(s, c, a).calls[c];
    assert CallOk(s, c, s.calls[c]);
    RollBackFits(s, c, call', s.calls[c].op.req);
    QuietStep(s, Release(s, c), c, call');
  }

  lemma CrashKeepsCoherent(s: State, c: CallId)
    requires Coherent(s) && CanStep(s, c, Crash)
    ensures Coherent(Step(s, c, Crash))
  {
    var call' := Step(s, c, Crash).calls[c];
    assert CallOk(s, c, s.calls[c]);
    CrashFits(s, c, call');
    QuietStep(s, Release(s, c), c, call');
  }

  /** The committed tables change only by commits of fresh transfers and by wallet seeding, and then exactly as
      the atomic operation of the stepping call says. */
  lemma StepRefinesSpec(s: State, c: CallId, a: Choice)
    requires Coherent(s) && SchemaOk(s.db) && CanStep(s, c, a)
    ensures var call, s' := s.calls[c], Step(s, c, a);
      || (s'.db == s.db && s'.opening == s.opening)
      || (s'.db == Apply(s.db, call.op, call.id, call.at).db && s'.opening == OpeningAfter(s.opening, s.db, call.op))
  {
    if !a.Crash? && s.calls[c].op.Create? && s.calls[c].pc.AtCommit? {
      CommitKeepsCoherent(s, c, a);
    }
  }

  lemma StepKeepsOps(s: State, c: CallId, a: Choice)
    requires OpsOk(s) && CanStep(s, c, a)
    ensures OpsOk(Step(s, c, a))
  {
    hide Submit, Step;
    StepMoves(s, c, a);
  }

  lemma StepKeepsCoherence(s: State, c: CallId, a: Choice)
    requires Coherent(s) && SchemaOk(s.db) && OneRecordEach(s.db) && CanStep(s, c, a)
    ensures Coherent(Step(s, c, a))
  {
    hide Coherent, SchemaOk, OneRecordEach, Step;
    if a.Crash? {
      CrashKeepsCoherent(s, c);
    } else if !s.calls[c].op.Create? {
      SingleStatementKeepsCoherent(s, c, a);
    } else if s.calls[c].pc.AtCommit? {
      CommitKeepsCoherent(s, c, a);
    } else {
      CreateStepKeepsCoherent(s, c, a);
    }
  }

  /** Every step of every call, in every interleaving and with every crash, keeps the invariant. */
  lemma StepKeepsInv(s: State, c: CallId, a: Choice)
    requires Inv(s) && CanStep(s, c, a)
    ensures Inv(Step(s, c, a))
  {
    hide Coherent, SchemaOk, OneRecordEach, Digests, Step, Apply;
    var call := s.calls[c];
    StepKeepsCoherence(s, c, a);
    StepKeepsOps(s, c, a);
    StepRefinesSpec(s, c, a);
    ApplyKeepsConsistent(s.opening, s.db, call.op, call.id, call.at);
    ApplyKeepsDigests(s.db, call.op, call.id, call.at) by { assert call.op.Create? ==> call.op == Submit(call.op.req); }
  }

  /** Every state of every run. */
  lemma {:induction false} RunHasInv(run: seq<State>, i: nat)
    requires IsRun(run) && i < |run|
    ensures Inv(run[i])
    decreases i
  {
    hide Coherent, Consistent, Digests, OpsOk, Step, CanStep, Init;
    if i == 0 {
      InitHasInv(run[0]);
    } else {
      RunHasInv(run, i - 1);
      assert Next(run[i - 1], run[i]);
      var c, a :| CanStep(run[i - 1], c, a) && run[i] == Step(run[i - 1], c, a);
      StepKeepsInv(run[i - 1], c, a);
    }
  }

  // ----- the invariant, part by part, for users of runs -----

  /** Every committed state of every run is consistent, and its records hold their transfers' digests. */
  lemma RunIsConsistent(run: seq<State>, i: nat)
    requires IsRun(run) && i < |run|
    ensures Consistent(run[i].opening, run[i].db) && Digests(run[i].db)
  {
    hide IsRun, Coherent, Consistent, Digests, OpsOk;
    RunHasInv(run, i);
  }

  lemma RunCall(run: seq<State>, i: nat, c: CallId)
    requires IsRun(run) && i < |run| && c in run[i].calls
    ensures CallOk(run[i], c, run[i].calls[c])
    ensures run[i].calls[c].op.Create? ==> run[i].calls[c].op == Submit(run[i].calls[c].op.req)
  {
    hide IsRun, Consistent, Digests, Submit, CallOk;
    RunHasInv(run, i);
  }

  lemma RunStep(run: seq<State>, i: nat) returns (c: CallId, a: Choice)
    requires IsRun(run) && 0 < i < |run|
    ensures CanStep(run[i - 1], c, a) && run[i] == Step(run[i - 1], c, a)
  {
    hide Init, Step, CanStep;
    assert Next(run[i - 1], run[i]);
    c, a :| CanStep(run[i - 1], c, a) && run[i] == Step(run[i - 1], c, a);
  }
}
