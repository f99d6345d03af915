/** The inductive invariant of the protocol: it holds initially and every step of every call keeps it. */
module Invariant {
  import opened Base
  import opened Domain
  import opened Schema
  import opened Spec
  import opened Protocol

  // ----- what the shared tables of locks and claims mean -----

  ghost predicate LockTablesOk(s: State) {
    && (forall w | w in s.locks :: LockOk(s, w, s.locks[w]))
    && (forall id | id in s.ids :: IdOk(s, id, s.ids[id]))
    && (forall k | k in s.keys :: KeyOk(s, k, s.keys[k]))
  }

  ghost predicate LockOk(s: State, w: WalletId, c: CallId) {
    && c in s.calls && s.calls[c].op.Create?
    && var call := s.calls[c];
       || (w == call.op.first && 4 <= Stage(call.pc) <= 15)
       || (w == call.op.second && 5 <= Stage(call.pc) <= 15)
  }

  ghost predicate IdOk(s: State, id: TransferId, c: CallId) {
    c in s.calls && s.calls[c].op.Create? && s.calls[c].id == id && 8 <= Stage(s.calls[c].pc) <= 15
  }

  ghost predicate KeyOk(s: State, k: Key, c: CallId) {
    c in s.calls && s.calls[c].op.Create? && s.calls[c].op.req.key == k && 9 <= Stage(s.calls[c].pc) <= 15
  }

  // ----- what a call knows -----

  ghost predicate Owns<K>(m: map<K, CallId>, k: K, c: CallId) {
    k in m && m[k] == c
  }

  ghost predicate Held(s: State, c: CallId, call: Call, req: Request)
    requires call.op.Create?
  {
    var n := Stage(call.pc);
    && (4 <= n <= 14 ==> Owns(s.locks, call.op.first, c) && call.op.first in s.db.wallets)
    && (5 <= n <= 14 ==> Owns(s.locks, call.op.second, c) && call.op.second in s.db.wallets)
    && (8 <= n <= 14 ==> Owns(s.ids, call.id, c) && call.id !in s.db.transfers)
    && (9 <= n <= 14 ==> Owns(s.keys, req.key, c) && req.key !in s.db.idem)
  }

  /** No lost update: balances read under the locks still are the committed ones. */
  ghost predicate ReadsCurrent(db: Tables, call: Call, req: Request) {
    var n := Stage(call.pc);
    && (6 <= n <= 14 ==> req.from in db.wallets && call.src == db.wallets[req.from])
    && (7 <= n <= 14 ==> req.to in db.wallets && call.dst == db.wallets[req.to])
  }

  /** The private writes at each program point. */
  function Written(call: Call, req: Request): WriteSet
    requires call.op.Create?
  {
    var n := Stage(call.pc);
    var pending, final := NewTransfer(req, call.id, call.at, Pending), Reported(call, req);
    var paid := call.src >= req.amount;
    WriteSet(
      if n <= 9 || !paid then map[]
      else if n == 10 then map[req.from := WrapSub(call.src, req.amount)]
      else map[req.from := WrapSub(call.src, req.amount), req.to := WrapAdd(call.dst, req.amount)],
      if n <= 7 then map[] else if n < 14 then map[call.id := pending] else map[call.id := final],
      if n <= 11 || !paid then [] else if n == 12 then Entries(final)[..1] else Entries(final),
      if n <= 8 then map[] else map[req.key := IdempotencyRecord(call.op.hash, call.id)])
  }

  ghost predicate BranchOk(call: Call, req: Request) {
    && (call.pc.AtMarkFailed? ==> call.src < req.amount)
    && (call.pc.AtDebitSrc? || 10 <= Stage(call.pc) <= 13 ==> call.src >= req.amount)
    && (11 <= Stage(call.pc) <= 14 && call.src >= req.amount ==> call.dst + req.amount <= MAX_INT64)
  }

  /** The two locks are the two wallets of the request. */
  predicate LocksThePair(op: Op)
    requires op.Create?
  {
    || (op.first == op.req.from && op.second == op.req.to)
    || (op.first == op.req.to && op.second == op.req.from)
  }

  ghost predicate Local(call: Call, req: Request)
    requires call.op.Create?
  {
    && LocksThePair(call.op)
    && (1 <= Stage(call.pc) <= 17 ==> Validate(req).None?)
    && (3 <= Stage(call.pc) <= 14 ==> call.ws == Written(call, req))
    && BranchOk(call, req)
  }

  // ----- what a call may answer -----

  /** Step `k` belongs to call `c`, lies within its interval, and changed the committed tables exactly as the
      atomic operation does, which there gives this answer. */
  ghost predicate TakesEffectAt(s: State, c: CallId, call: Call, k: nat, answer: Answer) {
    && call.started <= k < |s.trace|
    && s.trace[k].actor == c
    && var o := Apply(Hist(s, k), call.op, call.id, call.at);
       o.db == Hist(s, k + 1) && (answer == Unknown || answer == o.answer)
  }

  /** Answers of calls that were rolled back and took no effect: a crash, or a uuid that was already taken. */
  ghost predicate NoEffect(op: Op, answer: Answer) {
    answer == Aborted || (op.Create? && answer == Refused(Store(UniqueViolation)))
  }

  ghost predicate Answerable(s: State, c: CallId, call: Call, answer: Answer) {
    match call.lin
    case None => NoEffect(call.op, answer)
    case Some(k) => TakesEffectAt(s, c, call, k, answer)
  }

  ghost predicate Idle(s: State, k: nat) {
    k < |s.trace| && Hist(s, k + 1) == Hist(s, k)
  }

  /** A promised answer that has not changed the tables and may still be dropped by a crash. */
  ghost predicate Promised(s: State, c: CallId, call: Call, answer: Answer) {
    Answerable(s, c, call, answer) && (call.lin.Some? ==> Idle(s, call.lin.value))
  }

  ghost predicate KeyWasAbsent(s: State, c: CallId, call: Call, req: Request) {
    && call.started <= call.keyReadAt < |s.trace|
    && s.trace[call.keyReadAt].actor == c
    && Idle(s, call.keyReadAt)
    && req.key !in Hist(s, call.keyReadAt).idem
  }

  ghost predicate Outlook(s: State, c: CallId, call: Call, req: Request) {
    && (1 <= Stage(call.pc) ==> call.started < |s.trace|)
    && (Stage(call.pc) <= 14 || call.pc.AtRaceKeyRead? ==> call.lin.None?)
    && (2 <= Stage(call.pc) <= 16 ==> KeyWasAbsent(s, c, call, req))
    && match call.pc
       case AtRollBack(Replayed) => call.lin.None? && req.key in s.db.idem
       case AtRollBack(Give(answer)) => Promised(s, c, call, answer) && answer != Aborted && answer != Unknown
       case AtRaceKeyRead => req.key in s.db.idem
       case AtFetchTransfer(found) =>
         call.lin.Some? && found in s.db.transfers && Promised(s, c, call, Moved(s.db.transfers[found]))
       case _ => true
  }

  ghost predicate Answered(s: State, c: CallId, call: Call) {
    call.pc.Finished? ==>
      && call.started < call.ended <= |s.trace|
      && (call.lin.Some? ==> call.lin.value < call.ended)
      && Answerable(s, c, call, call.pc.answer)
      // only a commit or an INSERT of a wallet can go unacknowledged
      && (call.op.Create? && call.pc.answer == Unknown ==> call.op.req.key in s.db.idem)
      && (call.op.GetWallet? || call.op.GetTransfer? ==> call.pc.answer != Unknown)
      // only a request that passed validation can draw a uuid that is taken, or commit
      && (call.op.Create? && (call.pc.answer == Unknown || (call.lin.None? && call.pc.answer != Aborted)) ==>
            Validate(call.op.req).None?)
  }

  ghost predicate CallOk(s: State, c: CallId, call: Call) {
    && Answered(s, c, call)
    && match call.op
       case Create(req, _, _, _) =>
         Held(s, c, call, req) && ReadsCurrent(s.db, call, req) && Local(call, req) && Outlook(s, c, call, req)
       case _ => call.pc.Finished? || (call.pc.AtStart? && call.lin.None?)
  }

  // ----- what the past means -----

  ghost predicate PastOk(s: State, k: nat)
    requires k < |s.trace|
  {
    && s.trace[k].actor in s.calls
    && Grows(Hist(s, k), s.db)
    && (Idle(s, k) || s.calls[s.trace[k].actor].lin == Some(k))
  }

  ghost predicate Inv(s: State) {
    Consistent(s.opening, s.db) && Digests(s.db) && OpsOk(s) && Coherent(s)
  }

  ghost predicate Coherent(s: State) {
    && LockTablesOk(s)
    && (forall c | c in s.calls :: CallOk(s, c, s.calls[c]))
    && (forall k: nat | k < |s.trace| :: PastOk(s, k))
  }

  lemma InitHasInv(s: State)
    requires Init(s)
    ensures Inv(s)
  {
    forall c | c in s.calls
      ensures CallOk(s, c, s.calls[c])
    {
      if s.calls[c].op.Create? {
        SubmitLocksThePair(s.calls[c].op.req);
      }
    }
  }

  lemma SubmitLocksThePair(req: Request)
    ensures LocksThePair(Submit(req))
  {
  }

  // ----- one step, seen from everybody else -----

  ghost predicate SameFor<K>(m: map<K, CallId>, m': map<K, CallId>, d: CallId) {
    forall k | k in m && m[k] == d :: k in m' && m'[k] == d
  }

  /** A step by `c` that leaves alone all that `d` holds and all that is protected by what `d` holds. */
  ghost predicate Undisturbed(s: State, s': State, d: CallId) {
    && SameFor(s.locks, s'.locks, d) && SameFor(s.ids, s'.ids, d) && SameFor(s.keys, s'.keys, d)
    && (forall w | w in s.db.wallets && Owns(s.locks, w, d) ::
          w in s'.db.wallets && s'.db.wallets[w] == s.db.wallets[w])
    && (forall id | Owns(s.ids, id, d) && id !in s.db.transfers :: id !in s'.db.transfers)
    && (forall k | Owns(s.keys, k, d) && k !in s.db.idem :: k !in s'.db.idem)
  }

  ghost predicate Extends(s: State, s': State, c: CallId) {
    && s'.trace == s.trace + [Moment(s.db, c)]
    && Grows(s.db, s'.db)
  }

  lemma HistKept(s: State, s': State, c: CallId, k: nat)
    requires Extends(s, s', c) && k <= |s.trace|
    ensures Hist(s', k) == Hist(s, k)
  {
  }

  lemma AnswerableKept(s: State, s': State, c: CallId, d: CallId, call: Call, answer: Answer)
    requires Extends(s, s', c) && Answerable(s, d, call, answer)
    ensures Answerable(s', d, call, answer)
    ensures Promised(s, d, call, answer) ==> Promised(s', d, call, answer)
  {
    if call.lin.Some? {
      HistKept(s, s', c, call.lin.value);
      HistKept(s, s', c, call.lin.value + 1);
    }
  }

  lemma KeyWasAbsentKept(s: State, s': State, c: CallId, d: CallId, call: Call, req: Request)
    requires Extends(s, s', c) && KeyWasAbsent(s, d, call, req)
    ensures KeyWasAbsent(s', d, call, req)
  {
    HistKept(s, s', c, call.keyReadAt);
    HistKept(s, s', c, call.keyReadAt + 1);
  }

  lemma OutlookKept(s: State, s': State, c: CallId, d: CallId, call: Call, req: Request)
    requires Extends(s, s', c) && Outlook(s, d, call, req)
    ensures Outlook(s', d, call, req)
  {
    if 2 <= Stage(call.pc) <= 16 {
      KeyWasAbsentKept(s, s', c, d, call, req);
    }
    match call.pc
    case AtRollBack(Give(answer)) => AnswerableKept(s, s', c, d, call, answer);
    case AtFetchTransfer(found) => AnswerableKept(s, s', c, d, call, Moved(s.db.transfers[found]));
    case _ =>
  }

  lemma OtherCallKept(s: State, s': State, c: CallId, d: CallId, call: Call)
    requires Extends(s, s', c) && Undisturbed(s, s', d)
    requires CallOk(s, d, call)
    ensures CallOk(s', d, call)
  {
    if call.pc.Finished? {
      AnswerableKept(s, s', c, d, call, call.pc.answer);
    }
    if call.op.Create? {
      var req := call.op.req;
      OutlookKept(s, s', c, d, call, req);
    }
  }

  // ----- one step, put together -----

  lemma StepKeepsCoherent(s: State, s': State, c: CallId)
    requires Coherent(s) && Extends(s, s', c) && c in s.calls
    requires s'.calls.Keys == s.calls.Keys && forall d | d in s.calls && d != c :: s'.calls[d] == s.calls[d]
    requires LockTablesOk(s')
    requires forall d | d in s.calls && d != c :: Undisturbed(s, s', d)
    requires CallOk(s', c, s'.calls[c])
    requires s'.db == s.db || s'.calls[c].lin == Some(|s.trace|)
    requires s.calls[c].lin == None || s.calls[c].lin == s'.calls[c].lin || Idle(s, s.calls[c].lin.value)
    ensures Coherent(s')
  {
    hide CallOk, Undisturbed, LockTablesOk, Grows, Consistent;
    forall d | d in s'.calls
      ensures CallOk(s', d, s'.calls[d])
    {
      if d != c {
        OtherCallKept(s, s', c, d, s.calls[d]);
      }
    }
    forall k: nat | k < |s'.trace|
      ensures PastOk(s', k)
    {
      HistKept(s, s', c, k);
      if k < |s.trace| {
        HistKept(s, s', c, k + 1);
        assert PastOk(s, k);
        GrowsTransitive(Hist(s, k), s.db, s'.db);
      }
    }
  }
}
