/** Deadlock freedom and termination, for every connection pool of at least one connection. */
module Progress {
  import opened Base
  import opened Domain
  import opened Schema
  import opened Spec
  import opened Protocol
  import opened Shape
  import opened Invariant
  import opened Steps

  // ----- who waits for whom -----

  lemma Unused(used: set<TransferId>) returns (id: TransferId)
    ensures id !in used
  {
    id := 0;
    ghost var rest := used;
    while id in used
      invariant rest == set j | j in used && j >= id
      decreases |rest|
    {
      ghost var smaller := set j | j in used && j >= id + 1;
      assert rest == smaller + {id};
      rest := smaller;
      id := id + 1;
    }
  }

  /** A uuid that no row has and no open transaction has inserted. */
  lemma FreshId(s: State) returns (id: TransferId)
    ensures id !in s.ids && id !in s.db.transfers
  {
    id := Unused(s.ids.Keys + s.db.transfers.Keys);
  }

  /** In a transaction, the first lock is the lexicographically smaller wallet. */
  lemma LocksAscend(s: State, c: CallId)
    requires Coherent(s) && OpsOk(s) && c in s.calls && s.calls[c].op.Create? && InTx(s.calls[c].pc)
    ensures LexLess(s.calls[c].op.first, s.calls[c].op.second)
  {
    var req := s.calls[c].op.req;
    assert CallOk(s, c, s.calls[c]);
    OrderedPairIsSymmetricAndAscending(req.from, req.to);
  }

  predicate AtSecondLock(s: State, c: CallId) {
    c in s.calls && s.calls[c].op.Create? && s.calls[c].pc.AtLockSecond?
  }

  /** Calls that wait for a second lock above `w`. */
  function Above(s: State, w: WalletId): set<CallId> {
    set c | c in s.calls && AtSecondLock(s, c) && LexLess(w, s.calls[c].op.second)
  }

  /** Who holds a wallet: someone past its first lock, and at the second lock only with its own first wallet. */
  lemma Holder(s: State, w: WalletId) returns (d: CallId)
    requires Coherent(s) && w in s.locks
    ensures s.locks[w] == d && d in s.calls && s.calls[d].op.Create? && 4 <= Stage(s.calls[d].pc) <= 15
    ensures s.calls[d].pc.AtLockSecond? ==> w == s.calls[d].op.first
  {
    hide CallOk, PastOk;
    d := s.locks[w];
    assert LockOk(s, w, d);
  }

  lemma KeyHolder(s: State, k: Key) returns (d: CallId)
    requires Coherent(s) && k in s.keys
    ensures s.keys[k] == d && d in s.calls && s.calls[d].op.Create? && 9 <= Stage(s.calls[d].pc) <= 15
  {
    d := s.keys[k];
    assert KeyOk(s, k, d);
  }

  lemma AboveShrinks(s: State, d: CallId, low: WalletId)
    requires AtSecondLock(s, d) && LexLess(low, s.calls[d].op.second)
    ensures Above(s, s.calls[d].op.second) < Above(s, low)
  {
    var high := s.calls[d].op.second;
    forall e | e in Above(s, high) ensures e in Above(s, low) {
      LexTransitive(low, high, s.calls[e].op.second);
    }
    LexIrreflexive(high);
    assert d in Above(s, low) && d !in Above(s, high);
  }

  /** The wallet row that a call asks for next. */
  function Awaited(s: State, c: CallId): Option<WalletId>
    requires c in s.calls
  {
    var call := s.calls[c];
    if !call.op.Create? then None
    else if call.pc.AtLockFirst? then Some(call.op.first)
    else if call.pc.AtLockSecond? then Some(call.op.second)
    else None
  }

  /** `d` holds the wallet, or claims the key, that `c` asks for next. */
  ghost predicate WaitsFor(s: State, c: CallId, d: CallId)
    requires c in s.calls
  {
    || (Awaited(s, c).Some? && Owns(s.locks, Awaited(s, c).value, d))
    || (s.calls[c].op.Create? && s.calls[c].pc.AtClaimKey? && Owns(s.keys, s.calls[c].op.req.key, d))
  }

  /** From `c` to `d` along the wait-for graph; where both wait for wallets, `d` waits for a larger one. */
  ghost predicate Hop(s: State, c: CallId, d: CallId) {
    && c in s.calls && d in s.calls && WaitsFor(s, c, d)
    && (Awaited(s, c).Some? && Awaited(s, d).Some? ==> LexLess(Awaited(s, c).value, Awaited(s, d).value))
  }

  ghost predicate WaitPath(s: State, path: seq<CallId>) {
    path != [] && forall i | 0 <= i < |path| - 1 :: Hop(s, path[i], path[i + 1])
  }

  lemma HopThenPath(s: State, c: CallId, path: seq<CallId>)
    requires WaitPath(s, path) && Hop(s, c, path[0])
    ensures WaitPath(s, [c] + path)
  {
    var longer := [c] + path;
    forall i | 0 <= i < |longer| - 1 ensures Hop(s, longer[i], longer[i + 1]) {
      assert i > 0 ==> Hop(s, path[i - 1], path[i]);
    }
  }

  /** A transaction that is past its locks can go on, or waits for a key whose claimant can. */
  lemma PastLocksLeadsToReadyOne(s: State, c: CallId, id: TransferId) returns (path: seq<CallId>)
    requires Coherent(s) && id !in s.ids
    requires c in s.calls && s.calls[c].op.Create? && InTx(s.calls[c].pc) && Awaited(s, c).None?
    ensures WaitPath(s, path) && path[0] == c && CanStep(s, path[|path| - 1], Go(id, 0))
  {
    hide Coherent;
    if s.calls[c].pc.AtClaimKey? && s.calls[c].op.req.key in s.keys {
      var d := KeyHolder(s, s.calls[c].op.req.key);
      path := [c, d];
    } else {
      path := [c];
    }
  }

  /** Who holds the wallet `c` asks for is past its own locks, or asks for a larger wallet. */
  lemma HolderIsAhead(s: State, c: CallId) returns (d: CallId)
    requires Coherent(s) && OpsOk(s) && c in s.calls && s.calls[c].op.Create? && InTx(s.calls[c].pc)
    requires Awaited(s, c).Some? && Awaited(s, c).value in s.locks
    ensures Hop(s, c, d) && d in s.calls && s.calls[d].op.Create? && 4 <= Stage(s.calls[d].pc) <= 15
    ensures Awaited(s, d).Some? ==> Above(s, Awaited(s, d).value) < Above(s, Awaited(s, c).value)
  {
    hide Coherent, OpsOk;
    var w := Awaited(s, c).value;
    d := Holder(s, w);
    if Awaited(s, d).Some? {
      LocksAscend(s, d);
      AboveShrinks(s, d, w);
    }
  }

  /** Following the wait-for graph from any open transaction ends at one that can send its next statement: each hop
      goes to a lexicographically larger wallet, or to a transaction that waits for no wallet. */
  lemma OpenTransactionLeadsToReadyOne(s: State, c: CallId, id: TransferId) returns (path: seq<CallId>)
    requires id !in s.ids && Coherent(s) && OpsOk(s) && c in s.calls && s.calls[c].op.Create? && InTx(s.calls[c].pc)
    ensures WaitPath(s, path) && path[0] == c && CanStep(s, path[|path| - 1], Go(id, 0))
    decreases Awaited(s, c).Some?, if Awaited(s, c).Some? then Above(s, Awaited(s, c).value) else {}
  {
    hide Coherent, OpsOk, Hop, Above;
    if Awaited(s, c).None? {
      path := PastLocksLeadsToReadyOne(s, c, id);
    } else if Awaited(s, c).value !in s.locks {
      path := [c];
    } else {
      var d := HolderIsAhead(s, c);
      path := OpenTransactionLeadsToReadyOne(s, d, id);
      HopThenPath(s, c, path);
      path := [c] + path;
    }
  }

  // ----- deadlock freedom -----

  lemma KindOfCall(s: State, c: CallId)
    requires Coherent(s) && c in s.calls
    ensures s.calls[c].op.Create? || s.calls[c].pc.AtStart? || s.calls[c].pc.Finished?
  {
    assert CallOk(s, c, s.calls[c]);
  }

  lemma FreePoolLetsAnyCallGo(s: State, c: CallId, id: TransferId)
    requires s.pool >= 1 && c in s.calls && !s.calls[c].pc.Finished?
    requires s.calls[c].op.Create? || s.calls[c].pc.AtStart?
    requires forall d | d in s.calls :: !InTx(s.calls[d].pc)
    ensures CanStep(s, c, Go(id, 0))
  {
    assert (set d | d in s.calls && InTx(s.calls[d].pc)) == {};
  }

  /** While any call is unfinished, some call can send its next statement without waiting. */
  lemma SomeCallCanGo(s: State, c: CallId, id: TransferId) returns (e: CallId)
    requires id !in s.ids && Coherent(s) && OpsOk(s) && s.pool >= 1
    requires c in s.calls && !s.calls[c].pc.Finished?
    ensures CanStep(s, e, Go(id, 0))
  {
    hide Coherent, OpsOk, CanStep;
    KindOfCall(s, c);
    if d :| d in s.calls && InTx(s.calls[d].pc) {
      KindOfCall(s, d);
      var path := OpenTransactionLeadsToReadyOne(s, d, id);
      e := path[|path| - 1];
    } else {
      FreePoolLetsAnyCallGo(s, c, id);
      e := c;
    }
  }

  lemma {:induction false} PoolStays(run: seq<State>, i: nat)
    requires IsRun(run) && i < |run|
    ensures run[i].pool >= 1 && run[i].calls.Keys == run[0].calls.Keys
  {
    hide Coherent, Step, CanStep;
    if i > 0 {
      PoolStays(run, i - 1);
      var c, a := RunStep(run, i);
      StepMoves(run[i - 1], c, a);
    }
  }

  lemma NoDeadlock(run: seq<State>, i: nat, c: CallId) returns (e: CallId, id: TransferId)
    requires IsRun(run) && i < |run| && c in run[i].calls && !run[i].calls[c].pc.Finished?
    ensures CanStep(run[i], e, Go(id, 0)) && id !in run[i].db.transfers
  {
    hide IsRun, Consistent, Digests, Coherent, OpsOk;
    RunHasInv(run, i);
    PoolStays(run, i);
    id := FreshId(run[i]);
    e := SomeCallCanGo(run[i], c, id);
  }

  // ----- what may go wrong -----

  /** At any point a call may crash: its transaction is gone, with all it held. A commit, and the insertion of a
      wallet, may take effect as usual and be reported as unknown. */
  lemma FaultsArePossible(s: State, c: CallId)
    requires c in s.calls && !s.calls[c].pc.Finished? && (s.calls[c].op.Create? || s.calls[c].pc.AtStart?)
    ensures CanStep(s, c, Crash)
    ensures var s' := Step(s, c, Crash);
      && s'.db == s.db && c in s'.calls && s'.calls[c].pc == Finished(Aborted)
      && c !in s'.locks.Values && c !in s'.ids.Values && c !in s'.keys.Values
    ensures CanStep(s, c, Go(0, 0)) && (s.calls[c].pc.AtCommit? || s.calls[c].op.SeedWallet?) ==>
      && CanStep(s, c, LoseAck) && Step(s, c, LoseAck).db == Step(s, c, Go(0, 0)).db
      && c in Step(s, c, LoseAck).calls && Step(s, c, LoseAck).calls[c].pc == Finished(Unknown)
  {
    hide View, Apply, SlotFree, Write, ReadKey, TakeLock, OpeningAfter, Reported;
  }

  // ----- the pool -----

  function Open(s: State): set<CallId> {
    set c | c in s.calls && InTx(s.calls[c].pc)
  }

  lemma EnteringNeedsSlot(s: State, c: CallId, a: Choice)
    requires CanStep(s, c, a) && c in Step(s, c, a).calls
    requires !InTx(s.calls[c].pc) && InTx(Step(s, c, a).calls[c].pc)
    ensures SlotFree(s)
  {
    hide SlotFree, Validate, View, Apply, Write, TakeLock, OpeningAfter;
  }

  /** No run ever has more open transactions than the pool has connections. */
  lemma {:induction false} OpenWithinPool(run: seq<State>, i: nat)
    requires IsRun(run) && i < |run|
    ensures |Open(run[i])| <= run[i].pool
  {
    hide IsRun, Step, CanStep, Open, SlotFree, InTx;
    if i == 0 {
      NothingOpenAtFirst(run);
    } else {
      OpenWithinPool(run, i - 1);
      var s := run[i - 1];
      var c, a := RunStep(run, i);
      StepMoves(s, c, a);
      OpenAfterMove(s, run[i], c);
      if !InTx(s.calls[c].pc) && InTx(run[i].calls[c].pc) {
        EnteringNeedsSlot(s, c, a);
        SlotFreeMeansRoom(s);
      }
    }
  }

  lemma OpenAfterMove(s: State, s': State, c: CallId)
    requires Moves(s, s', c)
    ensures |Open(s')| <= |Open(s)| + 1
    ensures InTx(s.calls[c].pc) || !InTx(s'.calls[c].pc) ==> |Open(s')| <= |Open(s)|
  {
    hide InTx;
    assert Open(s') == if InTx(s'.calls[c].pc) then Open(s) + {c} else Open(s) - {c};
    if InTx(s.calls[c].pc) {
      assert Open(s) + {c} == Open(s);
    }
  }

  lemma SlotFreeMeansRoom(s: State)
    requires SlotFree(s)
    ensures |Open(s)| < s.pool
  {
    assert Open(s) == set c | c in s.calls && InTx(s.calls[c].pc);
  }

  lemma NothingOpenAtFirst(run: seq<State>)
    requires IsRun(run)
    ensures Open(run[0]) == {}
  {
  }

  // ----- termination -----

  function Ranks(calls: map<CallId, Call>): map<CallId, int> {
    map c | c in calls :: 18 - Stage(calls[c].pc)
  }

  /** Statements that are still to come, at most. */
  ghost function Rank(s: State): int { Sum(Ranks(s.calls)) }

  lemma {:induction false} RanksBounded(m: map<CallId, int>)
    requires forall c | c in m :: 0 <= m[c] <= 18
    ensures 0 <= Sum(m) <= 18 * |m|
    decreases |m|
  {
    if m != map[] {
      var c :| c in m;
      SumWithout(m, c);
      RanksBounded(m - {c});
      assert |m - {c}| == |m| - 1 by { assert (m - {c}).Keys == m.Keys - {c}; }
    }
  }

  lemma StepLowersRank(s: State, c: CallId, a: Choice)
    requires CanStep(s, c, a)
    ensures Rank(Step(s, c, a)) < Rank(s)
  {
    hide Step, CanStep;
    StepMoves(s, c, a);
    SumsDifferAt(Ranks(s.calls), Ranks(Step(s, c, a).calls), c);
  }

  lemma {:induction false} RunsAreShort(run: seq<State>, i: nat)
    requires IsRun(run) && i < |run|
    ensures i + Rank(run[i]) <= Rank(run[0]) && 0 <= Rank(run[i])
  {
    hide Init, Step, CanStep;
    RanksBounded(Ranks(run[i].calls));
    if i > 0 {
      RunsAreShort(run, i - 1);
      var c, a := RunStep(run, i);
      StepLowersRank(run[i - 1], c, a);
    }
  }

  /** No run of N calls takes more than 18 N steps, whatever crashes and however the calls interleave. */
  lemma RunLengthBound(run: seq<State>)
    requires IsRun(run)
    ensures |run| - 1 <= 18 * |run[0].calls|
  {
    hide Init, Next;
    RunsAreShort(run, |run| - 1);
    RanksBounded(Ranks(run[0].calls));
    assert |Ranks(run[0].calls)| == |run[0].calls| by { assert Ranks(run[0].calls).Keys == run[0].calls.Keys; }
  }

  predicate HasAnswer(s: State, c: CallId) {
    c in s.calls && s.calls[c].pc.Finished?
  }

  ghost predicate AllAnswered(s: State) {
    forall c | c in s.calls :: HasAnswer(s, c)
  }

  lemma Extend(run: seq<State>, c: CallId, a: Choice)
    requires IsRun(run) && CanStep(run[|run| - 1], c, a)
    ensures IsRun(run + [Step(run[|run| - 1], c, a)])
  {
    hide Init, Step, CanStep;
    var next := Step(run[|run| - 1], c, a);
    var longer := run + [next];
    assert Next(run[|run| - 1], next);
    forall i | 0 <= i < |longer| - 1 ensures Next(longer[i], longer[i + 1]) {
      assert i < |run| - 1 ==> Next(run[i], run[i + 1]);
    }
  }

  /** Some call runs its next statement: nobody crashes, no reply is lost, and a new uuid is new. */
  ghost predicate GoesOn(s: State, s': State) {
    exists c, id :: id !in s.db.transfers && CanStep(s, c, Go(id, 0)) && s' == Step(s, c, Go(id, 0))
  }

  /** From its `n`th state on, the run only goes on. */
  ghost predicate GoesOnFrom(run: seq<State>, n: nat) {
    forall i | n < i < |run| :: GoesOn(run[i - 1], run[i])
  }

  /** An answer, if it has one, tells the client what became of its request. */
  predicate Informative(pc: Pc) {
    pc.Finished? ==> pc.answer != Aborted && pc.answer != Unknown
  }

  const COLLISION: Answer := Refused(Store(UniqueViolation))

  /** Refused, or about to be, because the uuid it drew was taken. */
  predicate Collided(pc: Pc) {
    pc == Finished(COLLISION) || pc == AtRollBack(Give(COLLISION))
  }

  lemma SpecAnswersInform(db: Tables, op: Op, id: TransferId, at: Time)
    ensures Informative(Finished(Apply(db, op, id, at).answer))
  {
  }

  lemma WriteEndsNoCall(s: State, c: CallId, call: Call, req: Request)
    requires call.op.Create? && Writes(call.pc)
    ensures c in Write(s, c, call, req).calls
    ensures var pc := Write(s, c, call, req).calls[c].pc;
      && !pc.Finished?
      && (Collided(pc) ==> Refusal(View(s.db, call.ws), StatementAt(call, req)) == Some(UniqueViolation))
      && (Collided(pc) ==> !call.pc.AtClaimKey?)
  {
    hide Refusal, View, ExecIn, StatementAt, Claims, After;
    ClaimsOnly(s, c, call, req);
  }

  /** Only the INSERT of the row can meet a taken uuid. */
  lemma NewIdIsAccepted(s: State, c: CallId, call: Call, req: Request)
    requires SchemaOk(s.db) && c in s.calls && CallOk(s, c, s.calls[c]) && IsCreate(call.op, req) && Writes(call.pc)
    requires call == if s.calls[c].pc.AtInsertTransfer? then s.calls[c].(id := call.id) else s.calls[c]
    requires !call.pc.AtClaimKey? && (call.pc.AtInsertTransfer? ==> call.id !in s.db.transfers)
    ensures Refusal(View(s.db, call.ws), StatementAt(call, req)) != Some(UniqueViolation)
  {
    hide SchemaOk, Outlook, Held, ReadsCurrent, TransferOnce, Written, BranchOk;
    if call.pc.AtInsertTransfer? {
      NothingWrittenYet(call, req, s.calls[c]);
      NothingWrittenNothingSeen(s.db);
    } else {
      RefusedWrite(s, c, call, req);
    }
  }

  lemma NothingWrittenYet(call: Call, req: Request, before: Call)
    requires IsCreate(before.op, req) && before.pc.AtInsertTransfer? && Local(before, req)
    requires call == before.(id := call.id)
    ensures call.ws == NO_WRITES
  {
  }

  lemma ReadKeyInforms(s: State, c: CallId, call: Call, req: Request, absent: Call)
    requires call.op.Create? && Informative(absent.pc) && !Collided(absent.pc)
    ensures c in ReadKey(s, c, call, req, absent).calls
    ensures var pc := ReadKey(s, c, call, req, absent).calls[c].pc; Informative(pc) && !Collided(pc)
  {
  }

  lemma TakeLockEndsNoCall(s: State, c: CallId, call: Call, w: WalletId, next: Pc)
    requires !next.Finished? && !next.AtRollBack?
    ensures c in TakeLock(s, c, call, w, next).calls
    ensures var pc := TakeLock(s, c, call, w, next).calls[c].pc; !pc.Finished? && !Collided(pc)
  {
  }

  lemma ReadSrcEndsNoCall(s: State, s': State, c: CallId, call: Call, id: TransferId, at: Time)
    requires call.op.Create? && call.pc.AtReadSrc? && s' == StepCreate(s, c, call, call.op.req, Go(id, at))
    ensures c in s'.calls && !s'.calls[c].pc.Finished? && !Collided(s'.calls[c].pc)
  {
    hide Write, ReadKey, TakeLock, Validate, View, Release, Reported;
  }

  lemma ReadDstEndsNoCall(s: State, s': State, c: CallId, call: Call, id: TransferId, at: Time)
    requires call.op.Create? && call.pc.AtReadDst? && s' == StepCreate(s, c, call, call.op.req, Go(id, at))
    ensures c in s'.calls && !s'.calls[c].pc.Finished? && !Collided(s'.calls[c].pc)
  {
    hide Write, ReadKey, TakeLock, Validate, View, Release, Reported;
  }

  lemma LocksEndNoCall(s: State, s': State, c: CallId, call: Call, id: TransferId, at: Time)
    requires call.op.Create? && 2 <= Stage(call.pc) <= 4 && s' == StepCreate(s, c, call, call.op.req, Go(id, at))
    ensures c in s'.calls && !s'.calls[c].pc.Finished? && !Collided(s'.calls[c].pc)
  {
    hide Write, ReadKey, TakeLock, Validate, View, Release, Reported;
    if call.pc.AtLockFirst? {
      TakeLockEndsNoCall(s, c, call, call.op.first, AtLockSecond);
    } else if call.pc.AtLockSecond? {
      TakeLockEndsNoCall(s, c, call, call.op.second, AtReadSrc);
    }
  }

  lemma EndOfTxInforms(s: State, s': State, c: CallId, call: Call, id: TransferId, at: Time)
    requires call.op.Create? && 14 <= Stage(call.pc) <= 15 && s' == StepCreate(s, c, call, call.op.req, Go(id, at))
    requires call.pc.AtRollBack? && call.pc.next.Give? ==> Informative(Finished(call.pc.next.answer))
    ensures c in s'.calls && Informative(s'.calls[c].pc) && (Collided(s'.calls[c].pc) ==> Collided(call.pc))
  {
    hide Write, ReadKey, TakeLock, Validate, View, Unowned, Reported;
  }

  lemma PlainInforms(s: State, s': State, c: CallId, call: Call, id: TransferId, at: Time)
    requires call.op.Create? && (call.pc.AtStart? || call.pc.AtFetchTransfer?)
    requires s' == StepCreate(s, c, call, call.op.req, Go(id, at))
    ensures c in s'.calls && Informative(s'.calls[c].pc) && !Collided(s'.calls[c].pc)
  {
    hide Write, ReadKey, TakeLock, View, Release, Reported;
  }

  lemma CreateGoInforms(s: State, s': State, c: CallId, call: Call, id: TransferId, at: Time)
    requires SchemaOk(s.db) && c in s.calls && call == s.calls[c] && CallOk(s, c, call) && id !in s.db.transfers
    requires call.op.Create? && !call.pc.Finished? && s' == StepCreate(s, c, call, call.op.req, Go(id, at))
    requires call.pc.AtRollBack? && call.pc.next.Give? ==> Informative(Finished(call.pc.next.answer))
    ensures c in s'.calls && Informative(s'.calls[c].pc) && (Collided(s'.calls[c].pc) ==> Collided(call.pc))
  {
    hide Write, ReadKey, TakeLock, Validate, View, Release, Reported, CallOk, SchemaOk, StatementAt, Refusal;
    var now, req := |s.trace|, call.op.req;
    if Writes(call.pc) {
      var sent := if call.pc.AtInsertTransfer? then call.(id := id) else call;
      WriteEndsNoCall(s, c, sent, req);
      if !call.pc.AtClaimKey? {
        NewIdIsAccepted(s, c, sent, req);
      }
    } else if call.pc.AtKeyRead? {
      ReadKeyInforms(s, c, call, req, call.(pc := AtBegin, keyReadAt := now));
    } else if call.pc.AtRaceKeyRead? {
      ReadKeyInforms(s, c, call, req, End(call, Nothing, None, now));
    } else if 2 <= Stage(call.pc) <= 4 {
      LocksEndNoCall(s, s', c, call, id, at);
    } else if call.pc.AtReadSrc? {
      ReadSrcEndsNoCall(s, s', c, call, id, at);
    } else if call.pc.AtReadDst? {
      ReadDstEndsNoCall(s, s', c, call, id, at);
    } else if 14 <= Stage(call.pc) <= 15 {
      EndOfTxInforms(s, s', c, call, id, at);
    } else {
      PlainInforms(s, s', c, call, id, at);
    }
  }

  lemma GivesInformativeAnswer(s: State, c: CallId, call: Call)
    requires CallOk(s, c, call) && call.op.Create? && call.pc.AtRollBack? && call.pc.next.Give?
    ensures Informative(Finished(call.pc.next.answer))
  {
    hide Held, ReadsCurrent, Local, Promised;
  }

  /** Only a crash or a lost reply ends a call without telling it what happened, and only a uuid that is taken ends a
      transfer with a collision. */
  lemma GoInforms(s: State, s': State, c: CallId, id: TransferId, at: Time)
    requires SchemaOk(s.db) && CanStep(s, c, Go(id, at)) && s' == Step(s, c, Go(id, at)) && CallOk(s, c, s.calls[c])
    requires id !in s.db.transfers
    ensures c in s'.calls && Informative(s'.calls[c].pc)
    ensures s.calls[c].op.Create? && Collided(s'.calls[c].pc) ==> Collided(s.calls[c].pc)
  {
    hide CallOk, StepCreate, Apply, Ready, SchemaOk;
    var call := s.calls[c];
    if call.op.Create? {
      if call.pc.AtRollBack? && call.pc.next.Give? {
        GivesInformativeAnswer(s, c, call);
      }
      CreateGoInforms(s, s', c, call, id, at);
    } else {
      SpecAnswersInform(s.db, call.op, 0, 0);
    }
  }

  predicate Unanswered(s: State, c: CallId) {
    c in s.calls && !s.calls[c].pc.Finished?
  }

  /** Whatever became of `c` since `s` told it so, and it has not collided since. */
  ghost predicate ToldSince(s: State, s': State, c: CallId)
    requires c in s.calls
  {
    && c in s'.calls && s'.calls[c].op == s.calls[c].op && Informative(s'.calls[c].pc)
    && (s.calls[c].op.Create? && Collided(s'.calls[c].pc) ==> Collided(s.calls[c].pc))
  }

  lemma {:induction false} GoingOnInforms(run: seq<State>, n: nat, i: nat, c: CallId)
    requires IsRun(run) && n <= i < |run| && GoesOnFrom(run, n) && Unanswered(run[n], c)
    ensures ToldSince(run[n], run[i], c)
    decreases i
  {
    hide IsRun, Step, CanStep, Submit, CallOk, SchemaOk, OneRecordEach, Digests, Collided, Informative;
    if n == i {
      OpenCallsAreInformative(run[n], c);
    } else {
      GoingOnInforms(run, n, i - 1, c);
      var s := run[i - 1];
      assert GoesOn(s, run[i]);
      var d, id :| id !in s.db.transfers && CanStep(s, d, Go(id, 0)) && run[i] == Step(s, d, Go(id, 0));
      StepMoves(s, d, Go(id, 0));
      if c == d {
        RunCall(run, i - 1, c);
        RunIsConsistent(run, i - 1);
        GoInforms(s, run[i], c, id, 0);
      }
    }
  }

  lemma OpenCallsAreInformative(s: State, c: CallId)
    requires Unanswered(s, c)
    ensures ToldSince(s, s, c)
  {
  }

  lemma OneStepGoesOn(s: State, c: CallId, id: TransferId)
    requires CanStep(s, c, Go(id, 0)) && id !in s.db.transfers
    ensures GoesOn(s, Step(s, c, Go(id, 0)))
  {
    hide Step, CanStep;
  }

  lemma RunCanGoOn(run: seq<State>) returns (full: seq<State>)
    requires IsRun(run)
    ensures IsRun(full) && run <= full && AllAnswered(full[|full| - 1])
    ensures GoesOnFrom(full, |run| - 1)
    decreases Rank(run[0]) - |run|
  {
    hide Init, Next, Step, CanStep, GoesOn;
    var s := run[|run| - 1];
    if AllAnswered(s) {
      full := run;
    } else {
      var c :| c in s.calls && !s.calls[c].pc.Finished?;
      var e, id := NoDeadlock(run, |run| - 1, c);
      Extend(run, e, Go(id, 0));
      var longer := run + [Step(s, e, Go(id, 0))];
      RunsAreShort(longer, |longer| - 1);
      full := RunCanGoOn(longer);
      OneStepGoesOn(s, e, id);
      assert full[|run| - 1] == s && full[|run|] == longer[|run|];
    }
  }

  /** Every call still open in `s` is answered in `s'`, and told what became of it. */
  ghost predicate OpenCallsTold(s: State, s': State) {
    forall c | Unanswered(s, c) :: HasAnswer(s', c) && ToldSince(s, s', c)
  }

  /** Whatever happened so far, the run can be carried on by statements that succeed or fail but never crash or lose
      their reply, until every call is answered; and every call still open now is then told what became of it, and no
      transfer fails for its uuid any more. */
  lemma RunCanBeCompleted(run: seq<State>) returns (full: seq<State>)
    requires IsRun(run)
    ensures IsRun(full) && run <= full && AllAnswered(full[|full| - 1])
    ensures GoesOnFrom(full, |run| - 1)
    ensures OpenCallsTold(run[|run| - 1], full[|full| - 1])
  {
    full := RunCanGoOn(run);
    hide IsRun, GoesOnFrom;
    var s, s' := run[|run| - 1], full[|full| - 1];
    forall c | Unanswered(s, c) ensures HasAnswer(s', c) && ToldSince(s, s', c) {
      GoingOnInforms(full, |run| - 1, |full| - 1, c);
    }
  }
}
