/** What every answer says about the tables, in plain terms: for each operation, in every run, there is a moment
    while the call was open at which its answer was true. */
module Answers {
  import opened Base
  import opened Domain
  import opened RequestText
  import opened Schema
  import opened Spec
  import opened Protocol
  import opened Invariant
  import opened Steps
  import opened Linearizability
  import opened Guarantees

  // ----- the moment at which a call took effect -----

  /** Step `k` of the run is a step of `c`, after its beginning and before its end, as the run itself shows. */
  ghost predicate During(run: seq<State>, i: nat, c: CallId, k: nat)
    requires i < |run|
  {
    && k < i && c in run[i].calls && run[i].calls[c].started <= k < run[i].calls[c].ended
    && (forall j: nat | j <= i && NotBegun(run[j], c) :: j <= k)
    && (forall j: nat | j <= i && HasEnded(run[j], c) :: k < j)
  }

  lemma IsDuring(run: seq<State>, i: nat, c: CallId, k: nat)
    requires i < |run| && Remembers(run, i) && HasEnded(run[i], c)
    requires run[i].calls[c].started <= k < run[i].calls[c].ended <= |run[i].trace|
    ensures During(run, i, c, k)
  {
    forall j: nat | j <= i
      ensures NotBegun(run[j], c) ==> j <= k
      ensures HasEnded(run[j], c) ==> k < j
    {
      assert Interval(run, i, c, j);
      assert j == i ==> !NotBegun(run[i], c);
    }
  }

  lemma EndedEffect(s: State, c: CallId, call: Call)
    requires CallOk(s, c, call) && call.pc.Finished? && call.lin.Some?
    ensures TakesEffectAt(s, c, call, call.lin.value, call.pc.answer)
    ensures call.started <= call.lin.value < call.ended <= |s.trace|
    ensures call.op.GetWallet? || call.op.GetTransfer? ==> call.pc.answer != Unknown
  {
    hide Apply, Held, ReadsCurrent, Local, Outlook;
  }

  lemma EndedWithoutEffect(s: State, c: CallId, call: Call)
    requires CallOk(s, c, call) && call.pc.Finished? && call.lin.None?
    ensures NoEffect(call.op, call.pc.answer)
  {
    hide Apply, Held, ReadsCurrent, Local, Outlook;
  }

  /** A call that was not rolled back has a step at which its atomic operation was done and gave its answer. */
  lemma MomentOfEffect(run: seq<State>, i: nat, c: CallId) returns (k: nat)
    requires IsRun(run) && i < |run| && HasEnded(run[i], c) && !NoEffect(run[i].calls[c].op, run[i].calls[c].pc.answer)
    ensures During(run, i, c, k) && k + 1 < |run|
    ensures var call, answer := run[i].calls[c], run[i].calls[c].pc.answer;
      && Apply(run[k].db, call.op, call.id, call.at).db == run[k + 1].db
      && (answer == Unknown || answer == Apply(run[k].db, call.op, call.id, call.at).answer)
      && (call.op.GetWallet? || call.op.GetTransfer? ==> answer != Unknown)
  {
    hide IsRun, CallOk, Apply, NoEffect;
    var s, call := run[i], run[i].calls[c];
    RunCall(run, i, c);
    if call.lin.None? {
      EndedWithoutEffect(s, c, call);
    }
    EndedEffect(s, c, call);
    RunRemembers(run, i);
    k := call.lin.value;
    IsDuring(run, i, c, k);
    assert Hist(s, k) == run[k].db && Hist(s, k + 1) == run[k + 1].db;
  }

  // ----- reads -----

  /** A wallet read that did not crash gives the balance committed at a moment while it was open, or says that there
      was no such wallet; nothing else. */
  lemma WalletReadIsTrue(run: seq<State>, i: nat, c: CallId, w: WalletId) returns (k: nat)
    requires IsRun(run) && i < |run| && HasEnded(run[i], c) && run[i].calls[c].op == GetWallet(w)
    requires run[i].calls[c].pc.answer != Aborted
    ensures During(run, i, c, k)
    ensures var answer, wallets := run[i].calls[c].pc.answer, run[k].db.wallets;
      answer == if w in wallets then Balance(wallets[w]) else Refused(NotFound)
  {
    hide IsRun, During;
    k := MomentOfEffect(run, i, c);
    DuringIsInRun(run, i, c, k);
  }

  lemma DuringIsInRun(run: seq<State>, i: nat, c: CallId, k: nat)
    requires i < |run| && During(run, i, c, k)
    ensures k < i
  {
  }

  /** A transfer read that did not crash gives the row committed at a moment while it was open, as it was, or says
      that there was none; nothing else. */
  lemma TransferReadIsTrue(run: seq<State>, i: nat, c: CallId, id: TransferId) returns (k: nat)
    requires IsRun(run) && i < |run| && HasEnded(run[i], c) && run[i].calls[c].op == GetTransfer(id)
    requires run[i].calls[c].pc.answer != Aborted
    ensures During(run, i, c, k)
    ensures var answer, rows := run[i].calls[c].pc.answer, run[k].db.transfers;
      answer == if id in rows then Moved(rows[id]) else Refused(NotFound)
  {
    hide IsRun, During;
    k := MomentOfEffect(run, i, c);
    DuringIsInRun(run, i, c, k);
  }

  /** Read your write: a transfer that was reported to a client, PROCESSED or FAILED, is what every later read of it
      reports, whatever happened in between. */
  lemma ReadsAfterSuccess(run: seq<State>, i: nat, j: nat, c: CallId, d: CallId, key: Key, t: Transfer)
    requires IsRun(run) && j <= i < |run| && Succeeded(run[j], c, key, t)
    requires NotBegun(run[j], d) && HasEnded(run[i], d) && run[i].calls[d].op == GetTransfer(t.id)
    ensures run[i].calls[d].pc.answer == Moved(t) || run[i].calls[d].pc.answer == Aborted
  {
    hide IsRun, Inv;
    if run[i].calls[d].pc.answer != Aborted {
      var k := TransferReadIsTrue(run, i, d, t.id);
      RunHasInv(run, j);
      SuccessStaysOnRecord(run[j], c, key, t);
      CommittedRowsAreFinal(run, j, k);
    }
  }

  // ----- seeding -----

  /** A seeding call that did not crash, at a moment while it was open, inserted the wallet with exactly the balance
      it was given if the id was not empty, the balance not negative (zero is fine) and the wallet new; otherwise it
      changed nothing. It was told so, unless the reply was lost. */
  lemma SeedingIsTrue(run: seq<State>, i: nat, c: CallId, w: WalletId, opening: Int64) returns (k: nat)
    requires IsRun(run) && i < |run| && HasEnded(run[i], c) && run[i].calls[c].op == SeedWallet(w, opening)
    requires run[i].calls[c].pc.answer != Aborted
    ensures During(run, i, c, k) && k + 1 < |run|
    ensures var answer, before, after := run[i].calls[c].pc.answer, run[k].db, run[k + 1].db;
      if w != "" && opening >= 0 && w !in before.wallets
      then
        && (answer == Seeded(opening) || answer == Unknown)
        && after == before.(wallets := before.wallets[w := opening])
      else
        && after == before
        && (answer == Unknown || answer == Refused(
              if w == "" then WalletNotFound else if opening < 0 then InvalidAmount else Store(UniqueViolation)))
  {
    hide IsRun, During;
    k := MomentOfEffect(run, i, c);
  }

  // ----- transfers -----

  /** A transfer request that was not rolled back did, at a moment while it was open, what its answer says, on the
      tables as they were then. If the reply to its COMMIT was lost, it would have been a true answer. */
  lemma TransferIsTrue(run: seq<State>, i: nat, c: CallId) returns (k: nat, told: Answer)
    requires IsRun(run) && i < |run| && HasEnded(run[i], c) && run[i].calls[c].op.Create?
    requires !NoEffect(run[i].calls[c].op, run[i].calls[c].pc.answer)
    ensures During(run, i, c, k) && k + 1 < |run|
    ensures run[i].calls[c].pc.answer == told || run[i].calls[c].pc.answer == Unknown
    ensures TransferAnswerIsTrue(run[k].db, run[k + 1].db, run[i].calls[c].op.req, run[i].calls[c].op.hash, told)
  {
    hide IsRun, During, TransferOnce, TransferAnswerIsTrue, NoEffect, Digests, OneRecordEach;
    k := MomentOfEffect(run, i, c);
    RunIsConsistent(run, k);
    var call := run[i].calls[c];
    SpecAnswerIsTrue(run[k].db, call.op.req, call.op.hash, call.id, call.at);
    told := Apply(run[k].db, call.op, call.id, call.at).answer;
  }

  // ----- requests that are not well formed -----

  /** Whoever is told of a transfer had sent a key, a positive amount and two different wallet ids. */
  lemma SuccessWasWellFormed(run: seq<State>, i: nat, c: CallId, key: Key, t: Transfer)
    requires IsRun(run) && i < |run| && Succeeded(run[i], c, key, t)
    ensures var req := run[i].calls[c].op.req;
      req.key != "" && req.amount > 0 && req.from != "" && req.to != "" && req.from != req.to
  {
    hide IsRun, During, TransferOnce;
    var k := MomentOfEffect(run, i, c);
    var call := run[i].calls[c];
    OnlyWellFormedMove(run[k].db, call.op.req, call.op.hash, call.id, call.at);
  }

  lemma NotWellFormedHasNotGone(s: State, c: CallId, call: Call, k: nat)
    requires CallOk(s, c, call) && call.op.Create? && !WellFormed(call.op.req) && call.lin == Some(k)
    ensures Idle(s, k)
  {
    ValidateDecides(call.op.req);
    assert call.pc.Finished?;
    EndedEffect(s, c, call);
    OnlyWellFormedMove(Hist(s, k), call.op.req, call.op.hash, call.id, call.at);
  }

  /** A request that breaks a rule ends with the error for the first rule it breaks, if it does not crash, and no step
      of its call changes the tables. */
  lemma BrokenRequestIsRefused(run: seq<State>, i: nat, c: CallId)
    requires IsRun(run) && i < |run| && c in run[i].calls && run[i].calls[c].op.Create?
    requires var req := run[i].calls[c].op.req;
      req.key == "" || req.amount <= 0 || req.from == "" || req.to == "" || req.from == req.to
    ensures HasEnded(run[i], c) ==> var answer := run[i].calls[c].pc.answer;
      answer == Aborted || (answer.Refused? && NamesFirstBrokenRule(answer.error, run[i].calls[c].op.req))
    ensures |run[i].trace| == i
    ensures forall k: nat | k < i && run[i].trace[k].actor == c :: run[k + 1].db == run[k].db
  {
    hide IsRun, CallOk, WellFormed, NamesFirstBrokenRule, Coherent;
    var s, call := run[i], run[i].calls[c];
    assert !WellFormed(call.op.req) by { BreaksARule(call.op.req); }
    RunHasInv(run, i);
    RunCall(run, i, c);
    RunRemembers(run, i);
    if HasEnded(s, c) {
      BrokenAnswer(s, c, call);
    }
    forall k: nat | k < i && s.trace[k].actor == c ensures run[k + 1].db == run[k].db {
      assert Hist(s, k) == run[k].db && Hist(s, k + 1) == run[k + 1].db;
      BrokenStepIsIdle(s, c, k);
    }
  }

  lemma BreaksARule(req: Request)
    requires req.key == "" || req.amount <= 0 || req.from == "" || req.to == "" || req.from == req.to
    ensures !WellFormed(req)
  {
  }

  lemma BrokenAnswer(s: State, c: CallId, call: Call)
    requires CallOk(s, c, call) && call.op.Create? && !WellFormed(call.op.req) && call.pc.Finished?
    ensures var answer := call.pc.answer;
      answer == Aborted || (answer.Refused? && NamesFirstBrokenRule(answer.error, call.op.req))
  {
    hide Held, ReadsCurrent, Local, Outlook, TransferOnce, WellFormed;
    ValidateDecides(call.op.req);
    if call.lin.Some? {
      OnlyWellFormedMove(Hist(s, call.lin.value), call.op.req, call.op.hash, call.id, call.at);
    }
  }

  lemma BrokenStepIsIdle(s: State, c: CallId, k: nat)
    requires Coherent(s) && c in s.calls && s.calls[c].op.Create? && !WellFormed(s.calls[c].op.req)
    requires k < |s.trace| && s.trace[k].actor == c
    ensures Hist(s, k + 1) == Hist(s, k)
  {
    hide CallOk, WellFormed, LockTablesOk;
    assert PastOk(s, k) && CallOk(s, c, s.calls[c]);
    if s.calls[c].lin == Some(k) {
      NotWellFormedHasNotGone(s, c, s.calls[c], k);
    }
  }
}
