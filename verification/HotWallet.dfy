/** One hot wallet debited by many concurrent calls, whatever else goes on meanwhile: how many of the debits succeed
    does not depend on the schedule. */
module HotWallet {
  import opened Base
  import opened Domain
  import opened RequestText
  import opened Schema
  import opened Spec
  import opened Protocol
  import opened Invariant
  import opened Steps
  import opened Linearizability
  import opened Guarantees
  import opened Outcomes

  function Min(a: nat, b: nat): nat { if a < b then a else b }

  /** How many of `n` debits of `a` a balance `b` can pay. */
  function Paid(b: nat, a: nat, n: nat): nat
    requires a > 0
  {
    Min(n, b / a)
  }

  /** What is left of `b` after `n` debits of `a`. */
  function Left(b: nat, a: nat, n: nat): int
    requires a > 0
  {
    b - Paid(b, a, n) * a
  }

  // ----- hot debits -----

  /** No call credits `hot`, and all that debit it debit the same amount. Calls may do anything else: move money
      between other wallets, retry, use keys again, seed and read wallets, crash. */
  ghost predicate OnlyHotDebits(s: State, hot: WalletId, amount: Int64) {
    && amount > 0 && hot in s.db.wallets
    && forall c | c in s.calls && Fresh(s.calls[c].op, s.db) :: LeavesHotAlone(s.calls[c].op.req, hot, amount)
  }

  predicate LeavesHotAlone(req: Request, hot: WalletId, amount: Int64) {
    req.to != hot && (req.from == hot ==> req.amount == amount)
  }

  /** Key `k` is new since `first`, and its transfer debits `hot`. */
  predicate DebitsHot(first: Tables, db: Tables, hot: WalletId, k: Key) {
    && k in db.idem && k !in first.idem
    && db.idem[k].transferId in db.transfers && db.transfers[db.idem[k].transferId].from == hot
  }

  predicate EndedAs(first: Tables, db: Tables, hot: WalletId, k: Key, state: TransferState) {
    DebitsHot(first, db, hot, k) && db.transfers[db.idem[k].transferId].state == state
  }

  /** The hot debits committed since `first`, each by its key. */
  function HotDebits(first: Tables, db: Tables, hot: WalletId): set<Key> {
    set k | k in db.idem && DebitsHot(first, db, hot, k)
  }

  function HotDebitsIn(first: Tables, db: Tables, hot: WalletId, state: TransferState): set<Key> {
    set k | k in db.idem && EndedAs(first, db, hot, k, state)
  }

  /** Of the hot debits committed so far exactly as many are PROCESSED as the first balance could pay, all others are
      FAILED, and the balance is what that leaves. */
  ghost predicate Tally(first: Tables, db: Tables, hot: WalletId, amount: Int64)
    requires amount > 0 && hot in first.wallets && first.wallets[hot] >= 0
  {
    var b, m := first.wallets[hot], |HotDebits(first, db, hot)|;
    && |HotDebitsIn(first, db, hot, Processed)| == Paid(b, amount, m)
    && |HotDebitsIn(first, db, hot, Failed)| == m - Paid(b, amount, m)
    && hot in db.wallets && db.wallets[hot] == Left(b, amount, m)
  }

  lemma OneMoreDebit(b: nat, a: nat, i: nat)
    requires a > 0
    ensures Left(b, a, i) >= a <==> i < b / a
    ensures Paid(b, a, i + 1) == Paid(b, a, i) + if i < b / a then 1 else 0
    ensures Left(b, a, i + 1) == if i < b / a then Left(b, a, i) - a else Left(b, a, i)
  {
    var q := b / a;
    assert q * a <= b < q * a + a;
    if i < q {
      assert (i + 1) * a <= q * a;
      assert (i + 1) * a == i * a + a;
    }
  }

  /** What one fresh transfer adds: itself, if it debits `hot`. */
  lemma DebitsAfter(first: Tables, db: Tables, after: Tables, req: Request, hash: string, t: Transfer, hot: WalletId)
    requires Settles(db, after, req, hash, t) && Grows(first, db) && OneRecordEach(db)
    ensures HotDebits(first, after, hot) == HotDebits(first, db, hot) + if req.from == hot then {req.key} else {}
    ensures req.key !in HotDebits(first, db, hot)
  {
    hide WellFormed, SignedRow, Entries;
    forall k
      ensures DebitsHot(first, after, hot, k) <==> DebitsHot(first, db, hot, k) || (k == req.key && req.from == hot)
    {
    }
  }

  lemma DebitsInAfter(first: Tables, db: Tables, after: Tables, req: Request, hash: string, t: Transfer, hot: WalletId,
                      state: TransferState)
    requires Settles(db, after, req, hash, t) && Grows(first, db) && OneRecordEach(db)
    ensures HotDebitsIn(first, after, hot, state) ==
      HotDebitsIn(first, db, hot, state) + if req.from == hot && t.state == state then {req.key} else {}
    ensures req.key !in HotDebitsIn(first, db, hot, state)
  {
    hide WellFormed, SignedRow, Entries;
    forall k
      ensures EndedAs(first, after, hot, k, state) <==>
        EndedAs(first, db, hot, k, state) || (k == req.key && req.from == hot && t.state == state)
    {
    }
  }

  lemma BalanceAfter(db: Tables, after: Tables, req: Request, hash: string, t: Transfer, hot: WalletId, amount: Int64)
    requires Settles(db, after, req, hash, t) && LeavesHotAlone(req, hot, amount) && hot in db.wallets
    ensures hot in after.wallets
    ensures after.wallets[hot] == db.wallets[hot] - if req.from == hot && t.state.Processed? then amount as int else 0
  {
  }

  lemma SettledState(db: Tables, req: Request, hash: string, id: TransferId, at: Time)
    requires forall w | w in db.wallets :: db.wallets[w] >= 0
    requires TransferOnce(db, req, hash, id, at).db != db
    ensures var o := TransferOnce(db, req, hash, id, at);
      && o.answer.Moved? && Settles(db, o.db, req, hash, o.answer.transfer)
      && o.answer.transfer.state == (if db.wallets[req.from] < req.amount then Failed else Processed)
  {
    TransferOnceSettles(db, req, hash, id, at);
  }

  lemma CountsAfter(first: Tables, db: Tables, after: Tables, req: Request, hash: string, t: Transfer, hot: WalletId)
    requires Settles(db, after, req, hash, t) && Grows(first, db) && OneRecordEach(db)
    ensures var one := if req.from == hot then 1 else 0;
      && |HotDebits(first, after, hot)| == |HotDebits(first, db, hot)| + one
      && |HotDebitsIn(first, after, hot, Processed)|
           == |HotDebitsIn(first, db, hot, Processed)| + (if t.state == Processed then one else 0)
      && |HotDebitsIn(first, after, hot, Failed)|
           == |HotDebitsIn(first, db, hot, Failed)| + (if t.state == Failed then one else 0)
  {
    hide Settles, HotDebits, HotDebitsIn, OneRecordEach, Grows;
    DebitsAfter(first, db, after, req, hash, t, hot);
    DebitsInAfter(first, db, after, req, hash, t, hot, Processed);
    DebitsInAfter(first, db, after, req, hash, t, hot, Failed);
  }

  lemma TallySettled(first: Tables, db: Tables, after: Tables, req: Request, hash: string, t: Transfer, hot: WalletId,
                     amount: Int64)
    requires amount > 0 && hot in first.wallets && first.wallets[hot] >= 0 && Tally(first, db, hot, amount)
    requires Grows(first, db) && OneRecordEach(db) && LeavesHotAlone(req, hot, amount)
    requires Settles(db, after, req, hash, t)
    requires req.from == hot ==> t.state == if db.wallets[hot] < amount then Failed else Processed
    ensures Tally(first, after, hot, amount)
  {
    hide Settles, HotDebits, HotDebitsIn, Paid, Left, OneRecordEach, Grows;
    CountsAfter(first, db, after, req, hash, t, hot);
    BalanceAfter(db, after, req, hash, t, hot, amount);
    OneMoreDebit(first.wallets[hot], amount, |HotDebits(first, db, hot)|);
  }

  lemma TallyStep(first: Tables, db: Tables, req: Request, hash: string, id: TransferId, at: Time, hot: WalletId,
                  amount: Int64)
    requires amount > 0 && hot in first.wallets && first.wallets[hot] >= 0 && Tally(first, db, hot, amount)
    requires Grows(first, db) && SchemaOk(db) && OneRecordEach(db)
    requires Fresh(Create(req, hash, "", ""), first) ==> LeavesHotAlone(req, hot, amount)
    requires TransferOnce(db, req, hash, id, at).db != db
    ensures Tally(first, TransferOnce(db, req, hash, id, at).db, hot, amount)
  {
    var o := TransferOnce(db, req, hash, id, at);
    SettledState(db, req, hash, id, at);
    hide TransferOnce, Tally, SchemaOk, OneRecordEach, WellFormed;
    TallySettled(first, db, o.db, req, hash, o.answer.transfer, hot, amount);
  }

  lemma TallyAfterApply(first: Tables, db: Tables, op: Op, id: TransferId, at: Time, hot: WalletId, amount: Int64)
    requires amount > 0 && hot in first.wallets && first.wallets[hot] >= 0 && Tally(first, db, hot, amount)
    requires Grows(first, db) && SchemaOk(db) && OneRecordEach(db)
    requires Fresh(op, first) ==> LeavesHotAlone(op.req, hot, amount)
    ensures Tally(first, Apply(db, op, id, at).db, hot, amount)
  {
    hide Tally, SchemaOk, OneRecordEach, LeavesHotAlone;
    match op
    case Create(req, hash, _, _) =>
      if TransferOnce(db, req, hash, id, at).db != db {
        TallyStep(first, db, req, hash, id, at, hot, amount);
      }
    case SeedWallet(w, b) =>
      SeedLeavesTally(first, db, w, b, hot, amount);
    case GetWallet(_) =>
    case GetTransfer(_) =>
  }

  lemma SeedLeavesTally(first: Tables, db: Tables, w: WalletId, b: Int64, hot: WalletId, amount: Int64)
    requires amount > 0 && hot in first.wallets && first.wallets[hot] >= 0 && Tally(first, db, hot, amount)
    ensures Tally(first, Seed(db, w, b).db, hot, amount)
  {
    var after := Seed(db, w, b).db;
    assert HotDebits(first, after, hot) == HotDebits(first, db, hot);
    assert forall state :: HotDebitsIn(first, after, hot, state) == HotDebitsIn(first, db, hot, state);
  }

  lemma NoTallyYet(first: Tables, hot: WalletId, amount: Int64)
    requires amount > 0 && hot in first.wallets && first.wallets[hot] >= 0
    ensures Tally(first, first, hot, amount)
  {
    assert HotDebits(first, first, hot) == {};
    assert forall state :: HotDebitsIn(first, first, hot, state) == {};
    assert 0 * amount == 0;
  }

  /** In every state of every run, however the other calls fare: of the m hot debits committed so far exactly
      min(m, B div amount) are PROCESSED, the others FAILED, and the balance is B less what was paid. */
  lemma {:induction false} HotDebitsTally(run: seq<State>, i: nat, hot: WalletId, amount: Int64)
    requires IsRun(run) && i < |run| && OnlyHotDebits(run[0], hot, amount)
    ensures run[0].db.wallets[hot] >= 0 && Tally(run[0].db, run[i].db, hot, amount)
    decreases i
  {
    hide IsRun, Tally, Consistent, Digests, Fresh, LeavesHotAlone, Apply, Grows;
    StartsNonNegative(run, hot);
    if i == 0 {
      NoTallyYet(run[0].db, hot, amount);
    } else {
      HotDebitsTally(run, i - 1, hot, amount);
      var c, call := CommittedStep(run, i);
      if run[i].db != run[i - 1].db {
        TallyAfterApply(run[0].db, run[i - 1].db, call.op, call.id, call.at, hot, amount);
      }
    }
  }

  lemma StartsNonNegative(run: seq<State>, w: WalletId)
    requires IsRun(run) && w in run[0].db.wallets
    ensures run[0].db.wallets[w] >= 0
  {
  }

  // ----- counted by keys, and by calls -----

  predicate HotCall(first: State, hot: WalletId, c: CallId) {
    c in first.calls && Fresh(first.calls[c].op, first.db) && first.calls[c].op.req.from == hot
  }

  function HotCalls(first: State, hot: WalletId): set<CallId> {
    set c | c in first.calls && HotCall(first, hot, c)
  }

  function KeysOf(first: State, calls: set<CallId>): set<Key>
    requires forall c | c in calls :: c in first.calls && first.calls[c].op.Create?
  {
    set c | c in calls :: first.calls[c].op.req.key
  }

  /** A call that neither crashed nor drew a uuid already taken, to a wallet that existed. Its reply may be lost. */
  ghost predicate Served(first: State, last: State, c: CallId)
    requires c in first.calls && first.calls[c].op.Create?
  {
    && HasEnded(last, c)
    && !NoEffect(first.calls[c].op, last.calls[c].pc.answer)
    && first.calls[c].op.req.to in first.db.wallets
  }

  /** All hot calls are served, their keys are used for hot debits only, and all money fits in an int64. */
  ghost predicate AllServed(first: State, last: State, hot: WalletId) {
    && Total(last.opening) <= MAX_INT64
    && (forall c | HotCall(first, hot, c) :: Served(first, last, c))
    && (forall c, d | HotCall(first, hot, c) && d in first.calls && Fresh(first.calls[d].op, first.db)
          && first.calls[d].op.req.key == first.calls[c].op.req.key :: HotCall(first, hot, d))
  }

  /** A run from `first` to `last`. */
  ghost predicate Between(run: seq<State>, first: State, last: State) {
    run != [] && IsRun(run) && run[0] == first && run[|run| - 1] == last
  }

  lemma ServedIsCommitted(run: seq<State>, first: State, last: State, hot: WalletId, c: CallId)
    requires Between(run, first, last) && hot in first.db.wallets && HotCall(first, hot, c)
    requires AllServed(first, last, hot)
    ensures DebitsHot(first.db, last.db, hot, first.calls[c].op.req.key)
  {
    var n := |run| - 1;
    hide IsRun, Total, NoEffect, WellFormed;
    OpsStay(run, n);
    TransferOrConflict(run, n, c);
    var d := RecordHasCall(run, n, first.calls[c].op.req.key);
  }

  lemma HotKeysAreCommitted(run: seq<State>, first: State, last: State, hot: WalletId)
    requires Between(run, first, last) && hot in first.db.wallets && AllServed(first, last, hot)
    ensures HotDebits(first.db, last.db, hot) == KeysOf(first, HotCalls(first, hot))
  {
    var n := |run| - 1;
    hide IsRun, AllServed, WellFormed;
    forall c | c in HotCalls(first, hot)
      ensures first.calls[c].op.req.key in HotDebits(first.db, last.db, hot)
    {
      ServedIsCommitted(run, first, last, hot, c);
    }
    forall k | k in HotDebits(first.db, last.db, hot)
      ensures k in KeysOf(first, HotCalls(first, hot))
    {
      var d := RecordHasCall(run, n, k);
      assert d in HotCalls(first, hot);
    }
  }

  /** N keys under which one amount is debited from a wallet holding B, by any number of calls and retries, amid any
      other traffic that leaves the wallet alone: in every interleaving exactly min(N, B div amount) of them are
      PROCESSED and the others are FAILED. */
  lemma HotWalletCount(run: seq<State>, first: State, last: State, hot: WalletId, amount: Int64, balance: nat)
    requires Between(run, first, last) && OnlyHotDebits(first, hot, amount) && AllServed(first, last, hot)
    requires balance == first.db.wallets[hot]
    ensures var n := |KeysOf(first, HotCalls(first, hot))|;
      && HotDebits(first.db, last.db, hot) == KeysOf(first, HotCalls(first, hot))
      && |HotDebitsIn(first.db, last.db, hot, Processed)| == Paid(balance, amount, n)
      && |HotDebitsIn(first.db, last.db, hot, Failed)| == n - Paid(balance, amount, n)
      && hot in last.db.wallets && last.db.wallets[hot] == Left(balance, amount, n)
  {
    var n := |run| - 1;
    hide IsRun, AllServed, HotDebits, HotDebitsIn, KeysOf, HotCalls, LeavesHotAlone;
    HotKeysAreCommitted(run, first, last, hot);
    HotDebitsTally(run, n, hot, amount);
  }

  // ----- one call per key -----

  /** No two calls share a key of a hot call. */
  ghost predicate KeysDistinct(first: State, hot: WalletId) {
    forall c, d | HotCall(first, hot, c) && d in first.calls && Fresh(first.calls[d].op, first.db)
      && first.calls[d].op.req.key == first.calls[c].op.req.key :: c == d
  }

  predicate CallEndedAs(first: State, last: State, hot: WalletId, c: CallId, state: TransferState) {
    HotCall(first, hot, c) && EndedAs(first.db, last.db, hot, first.calls[c].op.req.key, state)
  }

  function CallsEndedAs(first: State, last: State, hot: WalletId, state: TransferState): set<CallId> {
    set c | c in first.calls && CallEndedAs(first, last, hot, c, state)
  }

  lemma {:induction false} DistinctKeysCount(first: State, calls: set<CallId>)
    requires forall c | c in calls :: c in first.calls && first.calls[c].op.Create?
    requires forall c, d | c in calls && d in calls && first.calls[c].op.req.key == first.calls[d].op.req.key :: c == d
    ensures |KeysOf(first, calls)| == |calls|
    decreases |calls|
  {
    if calls != {} {
      var c :| c in calls;
      DistinctKeysCount(first, calls - {c});
      assert KeysOf(first, calls) == KeysOf(first, calls - {c}) + {first.calls[c].op.req.key};
    }
  }

  lemma CallsEndedAsCount(first: State, last: State, hot: WalletId, state: TransferState)
    requires KeysDistinct(first, hot)
    requires HotDebits(first.db, last.db, hot) == KeysOf(first, HotCalls(first, hot))
    ensures |CallsEndedAs(first, last, hot, state)| == |HotDebitsIn(first.db, last.db, hot, state)|
  {
    hide WellFormed;
    var calls := CallsEndedAs(first, last, hot, state);
    forall k | k in HotDebitsIn(first.db, last.db, hot, state) ensures k in KeysOf(first, calls) {
      assert k in KeysOf(first, HotCalls(first, hot));
      var c :| c in HotCalls(first, hot) && first.calls[c].op.req.key == k;
      assert c in calls;
    }
    assert KeysOf(first, calls) == HotDebitsIn(first.db, last.db, hot, state);
    DistinctKeysCount(first, calls);
  }

  /** The answer is the committed transfer, or the reply to the COMMIT was lost. */
  ghost predicate ToldTheTransfer(last: State, c: CallId, key: Key)
    requires HasEnded(last, c)
  {
    || last.calls[c].pc.answer == Unknown
    || (last.calls[c].pc.answer.Moved? && OnRecord(last.db, key, last.calls[c].pc.answer.transfer))
  }

  lemma HotCallIsTold(run: seq<State>, first: State, last: State, hot: WalletId, c: CallId)
    requires Between(run, first, last) && hot in first.db.wallets && HotCall(first, hot, c)
    requires AllServed(first, last, hot) && KeysDistinct(first, hot)
    ensures HasEnded(last, c) && ToldTheTransfer(last, c, first.calls[c].op.req.key)
  {
    var n := |run| - 1;
    hide IsRun, Total, NoEffect, WellFormed, Inv, HashText;
    OpsStay(run, n);
    TransferOrConflict(run, n, c);
    var answer := last.calls[c].pc.answer;
    if answer == Refused(IdempotencyConflict) {
      var d := ConflictHasRival(run, n, c);
      assert false;
    } else if answer.Moved? {
      RunHasInv(run, n);
      SuccessStaysOnRecord(last, c, last.calls[c].op.req.key, answer.transfer);
    }
  }

  /** N calls that debit one amount from a wallet holding B, each under a key of its own, amid any other traffic that
      leaves the wallet alone: in every interleaving exactly min(N, B div amount) of their transfers are PROCESSED and
      the others FAILED, and each call is told its own unless the reply is lost. */
  lemma HotWalletCalls(run: seq<State>, first: State, last: State, hot: WalletId, amount: Int64, balance: nat)
    requires Between(run, first, last) && OnlyHotDebits(first, hot, amount)
    requires AllServed(first, last, hot) && KeysDistinct(first, hot) && balance == first.db.wallets[hot]
    ensures var n := |HotCalls(first, hot)|;
      && |CallsEndedAs(first, last, hot, Processed)| == Paid(balance, amount, n)
      && |CallsEndedAs(first, last, hot, Failed)| == n - Paid(balance, amount, n)
    ensures forall c | HotCall(first, hot, c) ::
      HasEnded(last, c) && ToldTheTransfer(last, c, first.calls[c].op.req.key)
  {
    HotWalletCount(run, first, last, hot, amount, balance);
    CallsEndedAsCount(first, last, hot, Processed);
    CallsEndedAsCount(first, last, hot, Failed);
    HotCallKeysCount(first, hot);
    hide Between, AllServed, HotDebits, HotDebitsIn, CallsEndedAs, KeysDistinct, ToldTheTransfer, WellFormed;
    forall c | HotCall(first, hot, c)
      ensures HasEnded(last, c) && ToldTheTransfer(last, c, first.calls[c].op.req.key)
    {
      HotCallIsTold(run, first, last, hot, c);
    }
  }

  lemma HotCallKeysCount(first: State, hot: WalletId)
    requires KeysDistinct(first, hot)
    ensures |KeysOf(first, HotCalls(first, hot))| == |HotCalls(first, hot)|
  {
    hide WellFormed;
    DistinctKeysCount(first, HotCalls(first, hot));
  }
}
