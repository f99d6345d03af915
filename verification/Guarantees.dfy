/** What clients, auditors and the history pages rely on, for every run of the protocol. */
module Guarantees {
  import opened Base
  import opened Domain
  import opened RequestText
  import opened Schema
  import opened Spec
  import opened Protocol
  import opened Shape
  import opened Invariant
  import opened Steps

  // ----- committed rows are final -----

  lemma StepGrows(s: State, c: CallId, a: Choice)
    requires Inv(s) && CanStep(s, c, a)
    ensures Grows(s.db, Step(s, c, a).db)
  {
    hide Coherent, Step, Apply;
    StepRefinesSpec(s, c, a);
    ApplyGrows(s.db, s.calls[c].op, s.calls[c].id, s.calls[c].at);
  }

  lemma NothingPending(run: seq<State>, i: nat)
    requires IsRun(run) && i < |run|
    ensures forall id | id in run[i].db.transfers :: !run[i].db.transfers[id].state.Pending?
  {
    hide IsRun;
    RunIsConsistent(run, i);
    assert forall id | id in run[i].db.transfers :: TransferSettled(run[i].db, run[i].db.transfers[id]);
  }

  /** No committed transfer is PENDING, and no committed transfer, ledger entry or idempotency record is ever
      rewritten or removed by anything that happens later in the run. */
  lemma {:induction false} CommittedRowsAreFinal(run: seq<State>, i: nat, j: nat)
    requires IsRun(run) && i <= j < |run|
    ensures Grows(run[i].db, run[j].db)
    ensures forall id | id in run[i].db.transfers :: !run[i].db.transfers[id].state.Pending?
    decreases j
  {
    hide IsRun, Inv, Step, CanStep;
    NothingPending(run, i);
    if i < j {
      CommittedRowsAreFinal(run, i, j - 1);
      RunHasInv(run, j - 1);
      var c, a := RunStep(run, j);
      StepGrows(run[j - 1], c, a);
      GrowsTransitive(run[i].db, run[j - 1].db, run[j].db);
    }
  }

  // ----- exactly once -----

  ghost predicate Succeeded(s: State, c: CallId, key: Key, t: Transfer) {
    && c in s.calls && s.calls[c].op.Create? && s.calls[c].op.req.key == key
    && s.calls[c].pc == Finished(Moved(t))
  }

  lemma PastIds(s: State, k: nat)
    requires Inv(s) && k <= |s.trace|
    ensures Grows(Hist(s, k), s.db)
    ensures forall id | id in Hist(s, k).transfers :: Hist(s, k).transfers[id].id == id
  {
    assert k < |s.trace| ==> PastOk(s, k);
    assert forall id | id in s.db.transfers :: TransferRowOk(s.db, id, s.db.transfers[id]);
  }

  lemma SuccessTookEffect(s: State, c: CallId, call: Call, t: Transfer)
    requires CallOk(s, c, call) && call.op.Create? && call.pc == Finished(Moved(t))
    ensures call.lin.Some? && TakesEffectAt(s, c, call, call.lin.value, Moved(t))
  {
    hide Apply;
  }

  lemma EffectIsOnRecord(s: State, c: CallId, call: Call, k: nat, t: Transfer)
    requires TakesEffectAt(s, c, call, k, Moved(t)) && call.op.Create?
    requires forall id | id in Hist(s, k).transfers :: Hist(s, k).transfers[id].id == id
    ensures OnRecord(Hist(s, k + 1), call.op.req.key, t)
    ensures Hist(s, k + 1).idem[call.op.req.key].hash == call.op.hash
  {
    hide TransferOnce;
    SuccessIsOnRecord(Hist(s, k), call.op.req, call.op.hash, call.id, call.at);
  }

  lemma SuccessStaysOnRecord(s: State, c: CallId, key: Key, t: Transfer)
    requires Inv(s) && Succeeded(s, c, key, t)
    ensures OnRecord(s.db, key, t) && s.db.idem[key].hash == s.calls[c].op.hash
  {
    hide Consistent, Digests, OpsOk, Coherent, Apply, CallOk;
    var call := s.calls[c];
    Unpack(s, c);
    SuccessTookEffect(s, c, call, t);
    var k := call.lin.value;
    PastIds(s, k);
    EffectIsOnRecord(s, c, call, k, t);
    PastIds(s, k + 1);
    RecordStays(Hist(s, k + 1), s.db, key, t);
  }

  /** Exactly once: whatever was retried, crashed or lost on the way, all successful answers for one key are the
      same transfer in the same terminal state, asked for by the same text; that transfer belongs to no other
      key, and money moved for it exactly as its one pair of ledger rows says (no rows if it FAILED). */
  lemma SuccessesWithOneKeyAgree(run: seq<State>, i: nat, c: CallId, d: CallId, key: Key, t: Transfer, u: Transfer)
    requires IsRun(run) && i < |run|
    requires Succeeded(run[i], c, key, t) && Succeeded(run[i], d, key, u)
    ensures t == u && !t.state.Pending?
    ensures HashText(run[i].calls[c].op.req) == HashText(run[i].calls[d].op.req)
    ensures EntriesOf(run[i].db.ledger, t.id) == Entries(t)
    ensures forall k | k in run[i].db.idem && run[i].db.idem[k].transferId == t.id :: k == key
  {
    hide IsRun, Inv, Submit, SchemaOk;
    var s := run[i];
    RunHasInv(run, i);
    RunIsConsistent(run, i);
    SuccessStaysOnRecord(s, c, key, t);
    SuccessStaysOnRecord(s, d, key, u);
    RunCall(run, i, c);
    RunCall(run, i, d);
    SubmitDigests(s.calls[c].op.req);
    SubmitDigests(s.calls[d].op.req);
    assert TransferSettled(s.db, s.db.transfers[t.id]);
  }

  lemma SubmitDigests(req: Request)
    ensures Submit(req).Create? && Submit(req).req == req && Submit(req).hash == HashText(req)
  {
  }

  // ----- conflicts -----

  /** Same amount, and the same wallets up to a bar that moves between the two ids. */
  predicate AskedFor(req: Request, t: Transfer) {
    var made := Request(req.key, t.from, t.to, t.amount);
    && t.amount == req.amount
    && ((t.from == req.from && t.to == req.to) || BarMoves(req, made) || BarMoves(made, req))
  }

  lemma AskedForIffSameText(s: State, req: Request, hash: string)
    requires Digests(s.db) && req.key in s.db.idem && hash == HashText(req)
    ensures s.db.idem[req.key].transferId in s.db.transfers
    ensures s.db.idem[req.key].hash == hash <==> AskedFor(req, s.db.transfers[s.db.idem[req.key].transferId])
  {
    hide HashText, BarMoves;
    assert DigestOf(s.db, req.key);
    var t := s.db.transfers[s.db.idem[req.key].transferId];
    SameTextIff(Request(req.key, t.from, t.to, t.amount), req);
  }

  /** Every success, fresh or replayed, is a transfer of the requested amount between the requested wallets, up to a
      bar that moved between the ids; without bars in the sources, or in the destinations, it is exactly that. */
  lemma SuccessAnswersRequest(run: seq<State>, i: nat, c: CallId, key: Key, t: Transfer)
    requires IsRun(run) && i < |run| && Succeeded(run[i], c, key, t)
    ensures var req := run[i].calls[c].op.req;
      && AskedFor(req, t)
      && ((BAR !in req.from && BAR !in t.from) || (BAR !in req.to && BAR !in t.to) ==>
            t.from == req.from && t.to == req.to)
  {
    hide IsRun, Inv, SchemaOk, Digests, OneRecordEach, CallOk, HashText, BarMoves, Submit;
    var s, req := run[i], run[i].calls[c].op.req;
    RunHasInv(run, i);
    RunIsConsistent(run, i);
    SuccessStaysOnRecord(s, c, key, t);
    RunCall(run, i, c);
    SubmitDigests(req);
    AskedForIffSameText(s, req, s.calls[c].op.hash);
    var made := Request(key, t.from, t.to, t.amount);
    SameTextIff(made, req);
    if (BAR !in req.from && BAR !in t.from) || (BAR !in req.to && BAR !in t.to) {
      EqualTextMeansEqualRequest(made, req);
    }
  }

  lemma ConflictTookEffect(s: State, c: CallId, call: Call)
    requires CallOk(s, c, call) && call.op.Create? && call.pc == Finished(Refused(IdempotencyConflict))
    ensures call.lin.Some? && TakesEffectAt(s, c, call, call.lin.value, Refused(IdempotencyConflict))
  {
    hide Apply;
  }

  lemma ConflictSawAnotherHash(db: Tables, req: Request, hash: string, id: TransferId, at: Time)
    requires TransferOnce(db, req, hash, id, at).answer == Refused(IdempotencyConflict)
    ensures req.key in db.idem && db.idem[req.key].hash != hash
  {
  }

  /** And a conflict is only ever reported for a key whose transfer is not the requested one. */
  lemma ConflictMeansDifferentRequest(run: seq<State>, i: nat, c: CallId)
    requires IsRun(run) && i < |run| && c in run[i].calls && run[i].calls[c].op.Create?
    requires run[i].calls[c].pc == Finished(Refused(IdempotencyConflict))
    ensures var req, db := run[i].calls[c].op.req, run[i].db;
      && req.key in db.idem && db.idem[req.key].transferId in db.transfers
      && !AskedFor(req, db.transfers[db.idem[req.key].transferId])
  {
    hide IsRun, Inv, SchemaOk, Digests, OneRecordEach, CallOk, TransferOnce, HashText, BarMoves, Submit;
    var s, call := run[i], run[i].calls[c];
    RunHasInv(run, i);
    RunIsConsistent(run, i);
    RunCall(run, i, c);
    SubmitDigests(call.op.req);
    ConflictTookEffect(s, c, call);
    var k := call.lin.value;
    ConflictSawAnotherHash(Hist(s, k), call.op.req, call.op.hash, call.id, call.at);
    PastIds(s, k);
    AskedForIffSameText(s, call.op.req, call.op.hash);
  }

  // ----- every answer is an answer -----

  /** A call that lost the race for its key always finds the winner: no call ends with neither a transfer nor an
      error. */
  lemma EveryAnswerIsAnAnswer(run: seq<State>, i: nat, c: CallId)
    requires IsRun(run) && i < |run| && c in run[i].calls
    ensures run[i].calls[c].pc != Finished(Nothing)
    ensures run[i].calls[c].pc.AtRaceKeyRead? && run[i].calls[c].op.Create? ==>
      var key := run[i].calls[c].op.req.key;
      key in run[i].db.idem && run[i].db.idem[key].transferId in run[i].db.transfers
  {
    hide IsRun, Submit, SchemaOk, Digests;
    RunIsConsistent(run, i);
    RunCall(run, i, c);
  }

  // ----- no lost update -----

  /** From the second balance read to the commit, the balances a transaction holds are the committed ones. */
  lemma ReadBalancesStayCurrent(run: seq<State>, i: nat, c: CallId)
    requires IsRun(run) && i < |run| && c in run[i].calls && run[i].calls[c].op.Create?
    requires 7 <= Stage(run[i].calls[c].pc) <= 14
    ensures var call, db := run[i].calls[c], run[i].db; var req := call.op.req;
      && req.from in db.wallets && call.src == db.wallets[req.from]
      && req.to in db.wallets && call.dst == db.wallets[req.to]
  {
    hide IsRun, Submit, Written, Outlook, Held;
    RunCall(run, i, c);
  }

  lemma CommittedIsSettled(s: State, c: CallId, call: Call, req: Request)
    requires CallOk(s, c, call) && IsCreate(call.op, req) && call.pc.AtCommit? && SchemaOk(s.db)
    ensures Settles(s.db, View(s.db, call.ws), req, call.op.hash, Reported(call, req))
  {
    hide View, Written, Outlook, TransferOnce, Settles;
    CommitIsTheSpec(s.db, call, req);
    TransferOnceSettles(s.db, req, call.op.hash, call.id, call.at);
  }

  /** So committing absolute balances adds and subtracts on the tables as committed at that moment: the new row
      is terminal and every balance moves by exactly what that row says. */
  lemma CommitAddsAndSubtracts(run: seq<State>, i: nat, c: CallId, a: Choice)
    requires IsRun(run) && i < |run| && CanStep(run[i], c, a) && !a.Crash?
    requires run[i].calls[c].op.Create? && run[i].calls[c].pc.AtCommit?
    ensures var call, db, after := run[i].calls[c], run[i].db, Step(run[i], c, a).db;
      Settles(db, after, call.op.req, call.op.hash, Reported(call, call.op.req))
  {
    hide IsRun, Submit, Digests, OneRecordEach;
    RunIsConsistent(run, i);
    RunCall(run, i, c);
    CommittedIsSettled(run[i], c, run[i].calls[c], run[i].calls[c].op.req);
  }

  // ----- the state machine nobody checks -----

  /** UpdateState has no guard on the current state, yet every state write of every run follows a legal edge. */
  lemma StateWritesAreLegal(run: seq<State>, i: nat, c: CallId)
    requires IsRun(run) && i < |run| && c in run[i].calls && run[i].calls[c].op.Create?
    requires run[i].calls[c].pc.AtMarkFailed? || run[i].calls[c].pc.AtMarkProcessed?
    ensures var call := run[i].calls[c];
      var st, rows := StatementAt(call, call.op.req), View(run[i].db, call.ws).transfers;
      && st.SetState? && st.transferId in rows
      && rows[st.transferId].state == Pending && (st.state == Processed || st.state == Failed)
      && CanTransitionTo(rows[st.transferId].state, st.state)
  {
    hide IsRun, Submit, Outlook, Held, ReadsCurrent;
    RunCall(run, i, c);
  }

  // ----- money -----

  /** Conservation, non-negative balances, and agreement with the ledger and with the PROCESSED rows. */
  lemma MoneyIsAccountedFor(run: seq<State>, i: nat)
    requires IsRun(run) && i < |run|
    ensures Total(run[i].db.wallets) == Total(run[i].opening)
    ensures run[i].opening.Keys == run[i].db.wallets.Keys
    ensures forall w | w in run[i].db.wallets :: 0 <= run[i].db.wallets[w] <= MAX_INT64
    ensures forall w | w in run[i].db.wallets ::
      && run[i].db.wallets[w] == run[i].opening[w] + Net(run[i].db.ledger, w)
      && run[i].db.wallets[w] == run[i].opening[w] + RowsNet(run[i].db.transfers, w)
  {
    hide IsRun, Digests, OneRecordEach;
    RunIsConsistent(run, i);
    assert forall w | w in run[i].opening :: BalanceExplained(run[i].opening, run[i].db, w);
  }
}
