/** Any number of concurrent service calls over shared tables, one step per SQL statement.

    A call in a transaction keeps its writes in a private write set, holds row locks on wallets, a claim on the
    uuid it inserted and a claim on its idempotency key until the transaction ends. A call may crash, be
    cancelled or lose its connection before any statement, and a commit may lose its acknowledgement. */
module Protocol {
  import opened Base
  import opened Domain
  import opened Schema
  import opened Spec

  type CallId = nat

  /** What a rolled-back transaction goes on to do. */
  datatype AfterRollBack = Replayed | Give(answer: Answer)

  /** The statement a call is about to send. */
  datatype Pc =
    | AtStart
    | AtKeyRead
    | AtBegin
    | AtLockFirst
    | AtLockSecond
    | AtReadSrc
    | AtReadDst
    | AtInsertTransfer
    | AtClaimKey
    | AtMarkFailed
    | AtDebitSrc
    | AtCreditDst
    | AtWriteDebit
    | AtWriteCredit
    | AtMarkProcessed
    | AtCommit
    | AtRollBack(next: AfterRollBack)
    | AtRaceKeyRead
    | AtFetchTransfer(found: TransferId)
    | Finished(answer: Answer)

  /** Position of a program point on every path through the code. */
  function Stage(pc: Pc): nat {
    match pc
    case AtStart => 0
    case AtKeyRead => 1
    case AtBegin => 2
    case AtLockFirst => 3
    case AtLockSecond => 4
    case AtReadSrc => 5
    case AtReadDst => 6
    case AtInsertTransfer => 7
    case AtClaimKey => 8
    case AtMarkFailed => 9
    case AtDebitSrc => 9
    case AtCreditDst => 10
    case AtWriteDebit => 11
    case AtWriteCredit => 12
    case AtMarkProcessed => 13
    case AtCommit => 14
    case AtRollBack(_) => 15
    case AtRaceKeyRead => 16
    case AtFetchTransfer(_) => 17
    case Finished(_) => 18
  }

  predicate InTx(pc: Pc) { 3 <= Stage(pc) <= 15 }

  /** `started`, `keyReadAt`, `lin` and `ended` are bookkeeping about the trace: the call's first step, its
      fast-path key read, the step at which it takes effect, and the number of the step after its last. */
  datatype Call = Call(
    op: Op, pc: Pc, id: TransferId, at: Time, src: Int64, dst: Int64, ws: WriteSet,
    started: nat, keyReadAt: nat, lin: Option<nat>, ended: nat)

  predicate IsCreate(op: Op, req: Request) { op.Create? && op.req == req }

  /** One step of the trace: who took it and the committed tables before it. */
  datatype Moment = Moment(before: Tables, actor: CallId)

  datatype State = State(
    db: Tables,
    opening: map<WalletId, Int64>,
    pool: nat,
    locks: map<WalletId, CallId>,
    ids: map<TransferId, CallId>,
    keys: map<Key, CallId>,
    calls: map<CallId, Call>,
    trace: seq<Moment>)

  /** Committed tables after the first `k` steps. */
  function Hist(s: State, k: nat): Tables
    requires k <= |s.trace|
  {
    if k < |s.trace| then s.trace[k].before else s.db
  }

  // ----- steps -----

  /** Records one step of `c` in the trace; `db` are the committed tables after it. */
  function Advance(s: State, c: CallId, call: Call, db: Tables): State {
    s.(db := db, calls := s.calls[c := call], trace := s.trace + [Moment(s.db, c)])
  }

  function End(call: Call, answer: Answer, lin: Option<nat>, now: nat): Call {
    call.(pc := Finished(answer), lin := lin, ended := now + 1)
  }

  function Unowned<K>(m: map<K, CallId>, c: CallId): map<K, CallId> {
    map k | k in m && m[k] != c :: m[k]
  }

  /** The end of a transaction frees everything it held. */
  function Release(s: State, c: CallId): State {
    s.(locks := Unowned(s.locks, c), ids := Unowned(s.ids, c), keys := Unowned(s.keys, c))
  }

  /** `Go` runs the next statement (a new uuid and the clock come with it). `LoseAck` runs it and loses the reply:
      after a COMMIT the caller gets an error, after a ROLLBACK it still gets the error it rolled back for. */
  datatype Choice = Go(id: TransferId, at: Time) | Crash | LoseAck

  predicate SlotFree(s: State) {
    |set c | c in s.calls && InTx(s.calls[c].pc)| < s.pool
  }

  /** When the next statement does not have to wait. */
  predicate Ready(s: State, call: Call, id: TransferId) {
    match call.pc
    case AtStart => call.op.Create? || SlotFree(s)
    case AtKeyRead => SlotFree(s)
    case AtBegin => SlotFree(s)
    case AtRaceKeyRead => SlotFree(s)
    case AtFetchTransfer(_) => SlotFree(s)
    case AtLockFirst => call.op.Create? && call.op.first !in s.locks
    case AtLockSecond => call.op.Create? && call.op.second !in s.locks
    case AtInsertTransfer => id !in s.ids
    case AtClaimKey => call.op.Create? && call.op.req.key !in s.keys
    case Finished(_) => false
    case _ => true
  }

  predicate CanStep(s: State, c: CallId, a: Choice) {
    && c in s.calls
    && !s.calls[c].pc.Finished?
    && (s.calls[c].op.Create? || s.calls[c].pc.AtStart?)
    && match a
       case Go(id, _) => Ready(s, s.calls[c], id)
       case Crash => true
       case LoseAck =>
         || s.calls[c].pc.AtCommit? || s.calls[c].pc.AtRollBack?
         || (s.calls[c].pc.AtStart? && s.calls[c].op.SeedWallet? && SlotFree(s))
  }

  function Step(s: State, c: CallId, a: Choice): (s': State)
    requires CanStep(s, c, a)
    ensures || (s'.db == s.db && s'.opening == s.opening)
            || (!a.Crash? && (s.calls[c].pc.AtCommit? || s.calls[c].op.SeedWallet?))
  {
    var call, now := s.calls[c], |s.trace|;
    if a.Crash? then
      var started := if call.pc.AtStart? then now else call.started;
      Advance(Release(s, c), c, End(call.(started := started), Aborted, None, now), s.db)
    else if call.op.Create? then StepCreate(s, c, call, call.op.req, a)
    else
      var o := Apply(s.db, call.op, 0, 0);
      var answer := if a.LoseAck? then Unknown else o.answer;
      Advance(s.(opening := OpeningAfter(s.opening, s.db, call.op)), c,
             End(call.(started := now, id := 0, at := 0), answer, Some(now), now), o.db)
  }

  function StepCreate(s: State, c: CallId, call: Call, req: Request, a: Choice): (s': State)
    requires !a.Crash? && !call.pc.Finished? && call.op.Create?
    ensures s'.db == (if call.pc.AtCommit? then View(s.db, call.ws) else s.db) && s'.opening == s.opening
  {
    var now := |s.trace|;
    match call.pc
    case AtStart =>
      if Validate(req).Some?
      then Advance(s, c, End(call.(started := now), Refused(Validate(req).value), Some(now), now), s.db)
      else Advance(s, c, call.(started := now, pc := AtKeyRead), s.db)
    case AtKeyRead => ReadKey(s, c, call, req, call.(pc := AtBegin, keyReadAt := now))
    case AtBegin => Advance(s, c, call.(pc := AtLockFirst, at := if a.Go? then a.at else 0, ws := NO_WRITES), s.db)
    case AtLockFirst => TakeLock(s, c, call, call.op.first, AtLockSecond)
    case AtLockSecond => TakeLock(s, c, call, call.op.second, AtReadSrc)
    case AtReadSrc =>
      if req.from in View(s.db, call.ws).wallets
      then Advance(s, c, call.(pc := AtReadDst, src := View(s.db, call.ws).wallets[req.from]), s.db)
      else GiveUp(s, c, call, Refused(NotFound), None)
    case AtReadDst =>
      if req.to in View(s.db, call.ws).wallets
      then Advance(s, c, call.(pc := AtInsertTransfer, dst := View(s.db, call.ws).wallets[req.to]), s.db)
      else GiveUp(s, c, call, Refused(NotFound), None)
    case AtCommit =>
      Advance(Release(s, c), c, End(call, if a.LoseAck? then Unknown else Moved(Reported(call, req)), Some(now), now),
             View(s.db, call.ws))
    case AtRollBack(Replayed) => Advance(Release(s, c), c, call.(pc := AtRaceKeyRead), s.db)
    case AtRollBack(Give(answer)) => Advance(Release(s, c), c, End(call, answer, call.lin, now), s.db)
    case AtRaceKeyRead => ReadKey(s, c, call, req, End(call, Nothing, None, now))
    case AtFetchTransfer(found) =>
      var answer := if found in s.db.transfers then Moved(s.db.transfers[found]) else Refused(NotFound);
      Advance(s, c, End(call, answer, call.lin, now), s.db)
    case AtInsertTransfer => Write(s, c, call.(id := if a.Go? then a.id else 0), req)
    case _ => Write(s, c, call, req)
  }

  /** replayIfExists up to its second query; `absent` is where an unknown key leads. */
  function ReadKey(s: State, c: CallId, call: Call, req: Request, absent: Call): (s': State)
    requires call.op.Create?
    ensures s'.db == s.db && s'.opening == s.opening
  {
    var now := |s.trace|;
    if req.key !in s.db.idem then Advance(s, c, absent, s.db)
    else if s.db.idem[req.key].hash != call.op.hash
    then Advance(s, c, End(call, Refused(IdempotencyConflict), Some(now), now), s.db)
    else Advance(s, c, call.(pc := AtFetchTransfer(s.db.idem[req.key].transferId), lin := Some(now)), s.db)
  }

  function GiveUp(s: State, c: CallId, call: Call, answer: Answer, lin: Option<nat>): (s': State)
    ensures s'.db == s.db && s'.opening == s.opening
  {
    Advance(s, c, call.(pc := AtRollBack(Give(answer)), lin := lin), s.db)
  }

  /** SELECT ... FOR UPDATE; only an existing row can be locked. A missing wallet was already missing when the
      key was read. */
  function TakeLock(s: State, c: CallId, call: Call, w: WalletId, next: Pc): (s': State)
    ensures s'.db == s.db && s'.opening == s.opening
  {
    if w in s.db.wallets then Advance(s.(locks := s.locks[w := c]), c, call.(pc := next), s.db)
    else GiveUp(s, c, call, Refused(NotFound), Some(call.keyReadAt))
  }

  /** The transfer executeTransfer hands back: the terminal state follows from the balance read. */
  function Reported(call: Call, req: Request): Transfer {
    NewTransfer(req, call.id, call.at, if call.src < req.amount then Failed else Processed)
  }

  predicate Writes(pc: Pc) { 7 <= Stage(pc) <= 13 }

  /** The writing statement of each program point. */
  function StatementAt(call: Call, req: Request): Statement
    requires call.op.Create?
  {
    match call.pc
    case AtInsertTransfer => InsertTransfer(NewTransfer(req, call.id, call.at, Pending))
    case AtClaimKey => InsertKey(req.key, IdempotencyRecord(call.op.hash, call.id))
    case AtMarkFailed => SetState(call.id, Failed, InsufficientFunds)
    case AtDebitSrc => SetBalance(req.from, WrapSub(call.src, req.amount))
    case AtCreditDst => SetBalance(req.to, WrapAdd(call.dst, req.amount))
    case AtWriteDebit => InsertEntry(LedgerEntry(call.id, req.from, Debit, req.amount))
    case AtWriteCredit => InsertEntry(LedgerEntry(call.id, req.to, Credit, req.amount))
    case _ => SetState(call.id, Processed, NoReason)
  }

  function After(call: Call, req: Request): Pc {
    match call.pc
    case AtInsertTransfer => AtClaimKey
    case AtClaimKey => if call.src < req.amount then AtMarkFailed else AtDebitSrc
    case AtDebitSrc => AtCreditDst
    case AtCreditDst => AtWriteDebit
    case AtWriteDebit => AtWriteCredit
    case AtWriteCredit => AtMarkProcessed
    case _ => AtCommit
  }

  /** An accepted INSERT claims its primary key until the transaction ends. */
  function Claims(s: State, c: CallId, call: Call, req: Request): State {
    if call.pc.AtInsertTransfer? then s.(ids := s.ids[call.id := c])
    else if call.pc.AtClaimKey? then s.(keys := s.keys[req.key := c])
    else s
  }

  /** One writing statement; a refusal leads to the roll-back the code takes for it. */
  function Write(s: State, c: CallId, call: Call, req: Request): (s': State)
    requires call.op.Create?
    ensures s'.db == s.db && s'.opening == s.opening
  {
    var st := StatementAt(call, req);
    match Refusal(View(s.db, call.ws), st)
    case None =>
      Advance(Claims(s, c, call, req), c, call.(ws := ExecIn(s.db, call.ws, st), pc := After(call, req)), s.db)
    case Some(UniqueViolation) =>
      if call.pc.AtClaimKey? then Advance(s, c, call.(pc := AtRollBack(Replayed)), s.db)
      else GiveUp(s, c, call, Refused(Store(UniqueViolation)), None)
    case Some(e) => GiveUp(s, c, call, Refused(Store(e)), Some(|s.trace|))
  }

  // ----- runs -----

  /** Digest and lock order of every request are the ones the code computes. */
  ghost predicate OpsOk(s: State) {
    forall c | c in s.calls && s.calls[c].op.Create? :: s.calls[c].op == Submit(s.calls[c].op.req)
  }

  ghost predicate Init(s: State) {
    && Consistent(s.opening, s.db)
    && s.pool >= 1
    && s.locks == map[] && s.ids == map[] && s.keys == map[]
    && (forall c | c in s.calls :: s.calls[c].pc.AtStart? && s.calls[c].lin.None?)
    && OpsOk(s) && Digests(s.db)
    && s.trace == []
  }

  ghost predicate Next(s: State, s': State) {
    exists c, a :: CanStep(s, c, a) && s' == Step(s, c, a)
  }

  ghost predicate IsRun(run: seq<State>) {
    && run != []
    && Init(run[0])
    && forall i | 0 <= i < |run| - 1 :: Next(run[i], run[i + 1])
  }
}
