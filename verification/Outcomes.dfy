/** Which answers a call can get, and where the committed transfers come from, in every run. */
module Outcomes {
  import opened Base
  import opened Domain
  import opened RequestText
  import opened Schema
  import opened Spec
  import opened Protocol
  import opened Shape
  import opened Invariant
  import opened Steps
  import opened Linearizability
  import opened Guarantees
  import opened Progress

  /** A request that must be acted on, under a key that is new on the tables `db`. */
  predicate Fresh(op: Op, db: Tables) {
    op.Create? && WellFormed(op.req) && op.req.key !in db.idem
  }

  // ----- runs seen from the committed tables -----

  lemma {:induction false} OpsStay(run: seq<State>, i: nat)
    requires IsRun(run) && i < |run|
    ensures run[i].calls.Keys == run[0].calls.Keys
    ensures forall c | c in run[i].calls :: run[i].calls[c].op == run[0].calls[c].op
  {
    hide Step, CanStep, Init;
    if i > 0 {
      OpsStay(run, i - 1);
      var c, a := RunStep(run, i);
      StepMoves(run[i - 1], c, a);
    }
  }

  /** One step: nothing, or the atomic operation of one call. */
  lemma CommittedStep(run: seq<State>, i: nat) returns (c: CallId, call: Call)
    requires IsRun(run) && 0 < i < |run|
    ensures c in run[0].calls && run[0].calls[c].op == call.op
    ensures run[i].db == run[i - 1].db || run[i].db == Apply(run[i - 1].db, call.op, call.id, call.at).db
    ensures Grows(run[0].db, run[i - 1].db) && SchemaOk(run[i - 1].db) && OneRecordEach(run[i - 1].db)
    ensures call.op.Create? && run[i].db != run[i - 1].db ==> HasEnded(run[i], c) && run[i].calls[c].at == call.at
    ensures forall d | HasEnded(run[i - 1], d) :: HasEnded(run[i], d) && run[i].calls[d] == run[i - 1].calls[d]
  {
    hide IsRun, Step, CanStep, Coherent, Digests, Apply, Grows, SchemaOk, OneRecordEach;
    var d, a := RunStep(run, i);
    RunHasInv(run, i - 1);
    StepMoves(run[i - 1], d, a);
    OpsStay(run, i - 1);
    CommittedRowsAreFinal(run, 0, i - 1);
    StepRefinesSpec(run[i - 1], d, a);
    if run[i - 1].calls[d].op.Create? && run[i].db != run[i - 1].db {
      CommitEndsCall(run[i - 1], d, a);
    }
    c, call := d, run[i - 1].calls[d];
  }

  lemma CommitEndsCall(s: State, c: CallId, a: Choice)
    requires CanStep(s, c, a) && s.calls[c].op.Create? && Step(s, c, a).db != s.db
    ensures HasEnded(Step(s, c, a), c)
  {
    hide Write, ReadKey, TakeLock, View, Unowned, Reported;
  }

  // ----- every record was made by a call -----

  /** The record of `k` and its transfer are what call `c` of the first state asked for. */
  ghost predicate MadeBy(first: State, db: Tables, c: CallId, k: Key) {
    && c in first.calls && Fresh(first.calls[c].op, first.db) && first.calls[c].op.req.key == k
    && k in db.idem && db.idem[k].hash == first.calls[c].op.hash
    && db.idem[k].transferId in db.transfers
    && var req, t := first.calls[c].op.req, db.transfers[db.idem[k].transferId];
       t.from == req.from && t.to == req.to && t.amount == req.amount
  }

  /** The transfer of `k` bears the time at which its call's transaction began, and that call has ended. */
  ghost predicate Stamped(s: State, c: CallId, k: Key) {
    && HasEnded(s, c) && k in s.db.idem && s.db.idem[k].transferId in s.db.transfers
    && s.db.transfers[s.db.idem[k].transferId].createdAt == s.calls[c].at
  }

  lemma StampedNow(db: Tables, s: State, c: CallId, call: Call, k: Key)
    requires s.db == Apply(db, call.op, call.id, call.at).db && k in s.db.idem && k !in db.idem
    requires forall w | w in db.wallets :: db.wallets[w] >= 0
    requires call.op.Create? ==> HasEnded(s, c) && s.calls[c].at == call.at
    ensures Stamped(s, c, k)
  {
    if call.op.Create? {
      TransferOnceSettles(db, call.op.req, call.op.hash, call.id, call.at);
    }
  }

  lemma EndedByStamp(s: State, c: CallId, k: Key)
    requires Stamped(s, c, k)
    ensures HasEnded(s, c)
  {
  }

  lemma StampStays(s: State, s': State, c: CallId, k: Key)
    requires Stamped(s, c, k) && Grows(s.db, s'.db) && HasEnded(s', c) && s'.calls[c] == s.calls[c]
    ensures Stamped(s', c, k)
  {
  }

  lemma MadeNow(first: State, db: Tables, c: CallId, call: Call, k: Key)
    requires c in first.calls && first.calls[c].op == call.op && Grows(first.db, db)
    requires forall w | w in db.wallets :: db.wallets[w] >= 0
    requires var after := Apply(db, call.op, call.id, call.at).db; k in after.idem && k !in db.idem
    ensures MadeBy(first, Apply(db, call.op, call.id, call.at).db, c, k)
  {
    if call.op.Create? {
      TransferOnceSettles(db, call.op.req, call.op.hash, call.id, call.at);
    }
  }

  lemma MadeStays(first: State, db: Tables, after: Tables, c: CallId, k: Key)
    requires MadeBy(first, db, c, k) && Grows(db, after)
    ensures MadeBy(first, after, c, k)
  {
  }

  /** No record and no transfer comes from nowhere: each that is new since the run began has an ended call of this run
      that asked, under that key, for exactly that transfer, in a transaction begun at its timestamp. */
  lemma {:induction false} RecordHasCall(run: seq<State>, i: nat, k: Key) returns (c: CallId)
    requires IsRun(run) && i < |run| && k in run[i].db.idem && k !in run[0].db.idem
    ensures MadeBy(run[0], run[i].db, c, k) && Stamped(run[i], c, k)
    decreases i
  {
    hide IsRun, Apply, Grows, MadeBy, OneRecordEach, Stamped;
    var d, call := CommittedStep(run, i);
    var before := run[i - 1].db;
    if k in before.idem {
      c := RecordHasCall(run, i - 1, k);
      CommittedRowsAreFinal(run, i - 1, i);
      MadeStays(run[0], before, run[i].db, c, k);
      assert HasEnded(run[i - 1], c) by { EndedByStamp(run[i - 1], c, k); }
      StampStays(run[i - 1], run[i], c, k);
    } else {
      c := d;
      StampedNow(before, run[i], c, call, k);
      MadeNow(run[0], before, c, call, k);
    }
  }

  /** So every new record has a key, and its transfer a positive amount and two different wallet ids. */
  lemma NewRecordsAreWellFormed(run: seq<State>, i: nat, k: Key)
    requires IsRun(run) && i < |run| && k in run[i].db.idem && k !in run[0].db.idem
    ensures k != "" && run[i].db.idem[k].transferId in run[i].db.transfers
    ensures var t := run[i].db.transfers[run[i].db.idem[k].transferId];
      t.amount > 0 && t.from != "" && t.to != "" && t.from != t.to
  {
    hide IsRun;
    var c := RecordHasCall(run, i, k);
  }

  // ----- no overflow when all money fits -----

  lemma {:induction false} SumIsNonNegative<K>(m: map<K, int>)
    requires forall k | k in m :: m[k] >= 0
    ensures Sum(m) >= 0
    decreases |m|
  {
    if m != map[] {
      var k :| k in m;
      SumWithout(m, k);
      SumIsNonNegative(m - {k});
    }
  }

  lemma TwoBalancesWithinTotal(balances: map<WalletId, Int64>, v: WalletId, w: WalletId)
    requires v in balances && w in balances && v != w && forall u | u in balances :: balances[u] >= 0
    ensures balances[v] + balances[w] <= Total(balances)
  {
    TotalPut(balances, v, 0);
    TotalPut(balances[v := 0], w, 0);
    SumIsNonNegative(Amounts(balances[v := 0][w := 0]));
  }

  lemma SeedAddsToTotal(opening: map<WalletId, Int64>, db: Tables, op: Op)
    requires opening.Keys == db.wallets.Keys
    ensures Total(opening) <= Total(OpeningAfter(opening, db, op))
  {
    if op.SeedWallet? {
      TotalPut(opening, op.wallet, op.opening);
    }
  }

  lemma {:induction false} OpeningsGrow(run: seq<State>, i: nat, j: nat)
    requires IsRun(run) && i <= j < |run|
    ensures Total(run[i].opening) <= Total(run[j].opening)
    decreases j
  {
    hide IsRun, Step, CanStep, Coherent, Digests, Apply, SchemaOk, OneRecordEach, Total;
    if i < j {
      OpeningsGrow(run, i, j - 1);
      RunHasInv(run, j - 1);
      var c, a := RunStep(run, j);
      StepMoves(run[j - 1], c, a);
      StepRefinesSpec(run[j - 1], c, a);
      SeedAddsToTotal(run[j - 1].opening, run[j - 1].db, run[j - 1].calls[c].op);
    }
  }

  // ----- which answers -----

  /** What the atomic operation can answer a valid request between two wallets that exist, when all money together
      fits in an int64. */
  lemma TransferConflictOrCollision(db: Tables, req: Request, hash: string, id: TransferId, at: Time)
    requires SchemaOk(db) && WellFormed(req) && req.from in db.wallets && req.to in db.wallets
    requires Total(db.wallets) <= MAX_INT64
    ensures var answer := TransferOnce(db, req, hash, id, at).answer;
      || answer.Moved? || answer == Refused(Store(UniqueViolation))
      || (answer == Refused(IdempotencyConflict) && req.key in db.idem)
  {
    TwoBalancesWithinTotal(db.wallets, req.from, req.to);
  }

  lemma EffectOfAnswered(s: State, c: CallId, call: Call)
    requires CallOk(s, c, call) && call.pc.Finished? && !NoEffect(call.op, call.pc.answer)
    ensures call.lin.Some? && TakesEffectAt(s, c, call, call.lin.value, call.pc.answer)
    ensures call.op.Create? && call.pc.answer == Unknown ==> call.op.req.key in s.db.idem
  {
    hide Apply, Held, ReadsCurrent, Local, Outlook;
  }

  /** Every valid request between two wallets that existed from the start, under a key unused then, in a run whose
      money fits in an int64, is answered with a transfer or a conflict, unless its call crashed, drew a uuid already
      taken or lost the reply to its COMMIT; and except after a crash or a collision a transfer is then on record under
      its key. */
  lemma TransferOrConflict(run: seq<State>, i: nat, c: CallId)
    requires IsRun(run) && i < |run| && HasEnded(run[i], c) && Fresh(run[i].calls[c].op, run[0].db)
    requires var req := run[i].calls[c].op.req; req.from in run[0].db.wallets && req.to in run[0].db.wallets
    requires Total(run[i].opening) <= MAX_INT64 && !NoEffect(run[i].calls[c].op, run[i].calls[c].pc.answer)
    ensures var answer := run[i].calls[c].pc.answer;
      answer.Moved? || answer == Refused(IdempotencyConflict) || answer == Unknown
    ensures run[i].calls[c].op.req.key in run[i].db.idem
  {
    hide IsRun, CallOk, Apply, Grows, Consistent, Digests, Coherent, OpsOk;
    var s, call := run[i], run[i].calls[c];
    RunHasInv(run, i);
    RunCall(run, i, c);
    EffectOfAnswered(s, c, call);
    var k := call.lin.value;
    RunRemembers(run, i);
    if call.pc.answer != Unknown {
      assert Hist(s, k) == run[k].db;
      FitsAt(run, i, k);
      CommittedRowsAreFinal(run, 0, k);
      CommittedRowsAreFinal(run, k, i);
      WalletsStay(run[0].db, run[k].db, call.op.req);
      AnswerAtEffect(run[k].db, call, call.pc.answer);
      if call.pc.answer.Moved? {
        SuccessStaysOnRecord(s, c, call.op.req.key, call.pc.answer.transfer);
      } else {
        KeyStays(run[k].db, s.db, call.op.req.key);
      }
    }
  }

  lemma AnswerAtEffect(db: Tables, call: Call, answer: Answer)
    requires call.op.Create? && WellFormed(call.op.req) && SchemaOk(db) && Total(db.wallets) <= MAX_INT64
    requires call.op.req.from in db.wallets && call.op.req.to in db.wallets
    requires answer == Apply(db, call.op, call.id, call.at).answer && !NoEffect(call.op, answer)
    ensures answer.Moved? || (answer == Refused(IdempotencyConflict) && call.op.req.key in db.idem)
  {
    hide TransferOnce;
    TransferConflictOrCollision(db, call.op.req, call.op.hash, call.id, call.at);
  }

  lemma WalletsStay(a: Tables, b: Tables, req: Request)
    requires Grows(a, b) && req.from in a.wallets && req.to in a.wallets
    ensures req.from in b.wallets && req.to in b.wallets
  {
  }

  lemma KeyStays(a: Tables, b: Tables, k: Key)
    requires Grows(a, b) && k in a.idem
    ensures k in b.idem
  {
  }

  lemma FitsAt(run: seq<State>, i: nat, k: nat)
    requires IsRun(run) && k <= i < |run| && Total(run[i].opening) <= MAX_INT64
    ensures SchemaOk(run[k].db) && Total(run[k].db.wallets) <= MAX_INT64
  {
    hide IsRun, SchemaOk, OneRecordEach, Digests, Total;
    RunIsConsistent(run, k);
    OpeningsGrow(run, k, i);
  }

  /** `c` is open at the end of the run, with a valid request under a key new since the run began, between wallets
      that existed then, and has not been refused for its uuid. */
  ghost predicate OpenRequest(first: State, s: State, c: CallId) {
    && Unanswered(s, c) && !Collided(s.calls[c].pc) && Fresh(s.calls[c].op, first.db)
    && var req := s.calls[c].op.req; req.from in first.db.wallets && req.to in first.db.wallets
  }

  /** `c` is answered with a transfer or a conflict, and its key has a transfer. */
  ghost predicate IsServed(s: State, c: CallId) {
    && HasEnded(s, c) && s.calls[c].op.Create? && s.calls[c].op.req.key in s.db.idem
    && (s.calls[c].pc.answer.Moved? || s.calls[c].pc.answer == Refused(IdempotencyConflict))
  }

  /** Whatever crashed, raced or got stuck in a queue so far: the run can be carried on, by statements alone, to an
      end at which every request still open now has been served, if all money fits in an int64. */
  lemma OpenRequestsCanBeServed(run: seq<State>) returns (full: seq<State>)
    requires IsRun(run)
    ensures IsRun(full) && run <= full && GoesOnFrom(full, |run| - 1)
    ensures var s, s' := run[|run| - 1], full[|full| - 1];
      Total(s'.opening) <= MAX_INT64 ==> forall c | OpenRequest(run[0], s, c) :: IsServed(s', c)
  {
    assert run != [];
    hide IsRun, GoesOnFrom, AllAnswered, OpenCallsTold, OpenRequest, IsServed, Total;
    full := RunCanBeCompleted(run);
    var s, s', n := run[|run| - 1], full[|full| - 1], |full| - 1;
    if Total(s'.opening) <= MAX_INT64 {
      forall c | OpenRequest(run[0], s, c) ensures IsServed(s', c) {
        ToldMeansServed(full, n, s, c);
      }
    }
  }

  lemma ToldMeansServed(full: seq<State>, n: nat, s: State, c: CallId)
    requires IsRun(full) && n < |full| && Total(full[n].opening) <= MAX_INT64
    requires OpenRequest(full[0], s, c) && OpenCallsTold(s, full[n])
    ensures IsServed(full[n], c)
  {
    hide IsRun, Total, WellFormed;
    TransferOrConflict(full, n, c);
  }

  /** A conflict under a key unused when the run began takes another call of the run that used it for another text. */
  lemma ConflictHasRival(run: seq<State>, i: nat, c: CallId) returns (d: CallId)
    requires IsRun(run) && i < |run| && c in run[i].calls && Fresh(run[i].calls[c].op, run[0].db)
    requires run[i].calls[c].pc == Finished(Refused(IdempotencyConflict))
    ensures d in run[0].calls && Fresh(run[0].calls[d].op, run[0].db)
    ensures run[0].calls[d].op.req.key == run[i].calls[c].op.req.key
    ensures HashText(run[0].calls[d].op.req) != HashText(run[i].calls[c].op.req)
  {
    hide IsRun, HashText, BarMoves, WellFormed;
    var req := run[i].calls[c].op.req;
    ConflictMeansDifferentRequest(run, i, c);
    d := RecordHasCall(run, i, req.key);
    SameTextIff(run[0].calls[d].op.req, req);
  }
}
