/** A run in which a transfer is committed behind the cursor of a client that pages through a wallet's history. */
module LateCommit {
  import opened Base
  import opened Domain
  import opened RequestText
  import opened Schema
  import opened Spec
  import opened Protocol
  import opened Shape
  import opened Invariant
  import opened Steps
  import opened Linearizability
  import opened Guarantees
  import opened Progress
  import opened Outcomes
  import opened History
  import opened RunHistory

  // ----- one of two calls runs to its end while the other waits -----

  /** There are two calls; `d` holds no lock. */
  ghost predicate RunsAlone(s: State, c: CallId, d: CallId) {
    && c != d && s.calls.Keys == {c, d} && s.pool >= 2
    && s.calls[c].op.Create? && s.calls[d].op.Create?
    && (Stage(s.calls[d].pc) <= 3 || s.calls[d].pc.Finished?)
  }

  lemma SlotForOne(s: State, c: CallId, d: CallId)
    requires RunsAlone(s, c, d) && !InTx(s.calls[c].pc)
    ensures SlotFree(s)
  {
    assert Open(s) == set c | c in s.calls && InTx(s.calls[c].pc);
    assert Open(s) == {} || Open(s) == {d};
  }

  lemma NobodyElseLocks(s: State, c: CallId, d: CallId)
    requires LockTablesOk(s) && RunsAlone(s, c, d)
    ensures forall w | w in s.locks :: LockOk(s, w, c)
    ensures forall k | k in s.keys :: KeyOk(s, k, c)
  {
    assert forall w | w in s.locks :: LockOk(s, w, s.locks[w]);
    assert forall k | k in s.keys :: KeyOk(s, k, s.keys[k]);
  }

  lemma AloneCanGo(s: State, c: CallId, d: CallId, id: TransferId, at: Time)
    requires Coherent(s) && RunsAlone(s, c, d) && Unanswered(s, c) && id !in s.ids
    ensures CanStep(s, c, Go(id, at))
  {
    hide SlotFree, Outlook, ReadsCurrent, Written;
    var pc := s.calls[c].pc;
    if !InTx(pc) {
      SlotForOne(s, c, d);
    }
    NobodyElseLocks(s, c, d);
    assert CallOk(s, c, s.calls[c]);
  }

  lemma EarlySteps(s: State, c: CallId, id: TransferId, at: Time)
    requires CanStep(s, c, Go(id, at)) && s.calls[c].op.Create? && Stage(s.calls[c].pc) <= 2
    requires WellFormed(s.calls[c].op.req) && s.calls[c].op.req.key !in s.db.idem
    ensures c in Step(s, c, Go(id, at)).calls
    ensures var call := Step(s, c, Go(id, at)).calls[c];
      Stage(call.pc) == Stage(s.calls[c].pc) + 1 && (Stage(call.pc) == 3 ==> call.at == at)
  {
    ValidateDecides(s.calls[c].op.req);
    hide Validate, WellFormed, View, Ready, Write, TakeLock, Release;
  }

  /** A call's key stays new until the call has ended, if no other call uses it. */
  lemma KeyStaysNew(run: seq<State>, i: nat, c: CallId)
    requires IsRun(run) && i < |run| && Unanswered(run[i], c) && Fresh(run[i].calls[c].op, run[0].db)
    requires forall d | d in run[0].calls && d != c && run[0].calls[d].op.Create? ::
      run[0].calls[d].op.req.key != run[i].calls[c].op.req.key
    ensures run[i].calls[c].op.req.key !in run[i].db.idem
  {
    hide IsRun, WellFormed;
    var k := run[i].calls[c].op.req.key;
    if k in run[i].db.idem {
      var d := RecordHasCall(run, i, k);
      assert false;
    }
  }

  ghost predicate OneKeyEach(first: State, c: CallId, d: CallId) {
    && c in first.calls && d in first.calls
    && first.calls.Keys == {c, d} && Fresh(first.calls[c].op, first.db) && Fresh(first.calls[d].op, first.db)
    && first.calls[c].op.req.key != first.calls[d].op.req.key
  }

  /** No crash, lost reply or taken uuid so far, and the transaction, once begun, began at time `at`. */
  ghost predicate OnTime(call: Call, at: Time) {
    && call.op.Create? && !Collided(call.pc) && Informative(call.pc)
    && (Stage(call.pc) >= 3 ==> call.at == at)
  }

  lemma DriveStep(run: seq<State>, c: CallId, d: CallId, at: Time) returns (longer: seq<State>)
    requires IsRun(run) && RunsAlone(run[|run| - 1], c, d) && OneKeyEach(run[0], c, d)
    requires Unanswered(run[|run| - 1], c) && OnTime(run[|run| - 1].calls[c], at)
    ensures IsRun(longer) && |longer| == |run| + 1 && run <= longer
    ensures RunsAlone(longer[|run|], c, d) && OnTime(longer[|run|].calls[c], at)
    ensures longer[|run|].calls[d] == run[|run| - 1].calls[d]
    ensures Stage(run[|run| - 1].calls[c].pc) < Stage(longer[|run|].calls[c].pc)
    ensures Stage(run[|run| - 1].calls[c].pc) <= 2 ==>
      Stage(longer[|run|].calls[c].pc) == Stage(run[|run| - 1].calls[c].pc) + 1
  {
    hide Init, Next, Step, CanStep, Validate, Coherent, CallOk, SchemaOk, OneRecordEach, Digests;
    var n := |run| - 1;
    var s := run[n];
    RunHasInv(run, n);
    RunIsConsistent(run, n);
    RunCall(run, n, c);
    OpsStay(run, n);
    var id := FreshId(s);
    AloneCanGo(s, c, d, id, at);
    Extend(run, c, Go(id, at));
    var s' := Step(s, c, Go(id, at));
    longer := run + [s'];
    StepMoves(s, c, Go(id, at));
    GoInforms(s, s', c, id, at);
    if Stage(s.calls[c].pc) <= 2 {
      KeyStaysNew(run, n, c);
      EarlySteps(s, c, id, at);
    }
  }

  lemma DriveToEnd(run: seq<State>, c: CallId, d: CallId, at: Time) returns (full: seq<State>)
    requires IsRun(run) && RunsAlone(run[|run| - 1], c, d) && OneKeyEach(run[0], c, d)
    requires OnTime(run[|run| - 1].calls[c], at)
    ensures IsRun(full) && run <= full
    ensures RunsAlone(full[|full| - 1], c, d) && OnTime(full[|full| - 1].calls[c], at)
    ensures HasEnded(full[|full| - 1], c)
    ensures full[|full| - 1].calls[d] == run[|run| - 1].calls[d]
    decreases 18 - Stage(run[|run| - 1].calls[c].pc)
  {
    hide Init, Next, OneKeyEach, OnTime;
    if run[|run| - 1].calls[c].pc.Finished? {
      full := run;
    } else {
      var longer := DriveStep(run, c, d, at);
      full := DriveToEnd(longer, c, d, at);
    }
  }

  /** Three statements take a call into its transaction, before its first lock. */
  lemma DriveToBegin(run: seq<State>, c: CallId, d: CallId, at: Time) returns (full: seq<State>)
    requires IsRun(run) && RunsAlone(run[|run| - 1], c, d) && OneKeyEach(run[0], c, d)
    requires OnTime(run[|run| - 1].calls[c], at) && Stage(run[|run| - 1].calls[c].pc) <= 3
    ensures IsRun(full) && run <= full
    ensures RunsAlone(full[|full| - 1], c, d) && OnTime(full[|full| - 1].calls[c], at)
    ensures full[|full| - 1].calls[c].pc.AtLockFirst?
    ensures full[|full| - 1].calls[d] == run[|run| - 1].calls[d]
    decreases 3 - Stage(run[|run| - 1].calls[c].pc)
  {
    hide Init, Next, OneKeyEach, OnTime;
    if Stage(run[|run| - 1].calls[c].pc) == 3 {
      full := run;
    } else {
      var longer := DriveStep(run, c, d, at);
      full := DriveToBegin(longer, c, d, at);
    }
  }

  // ----- the rows of such a run -----

  function RowOf(db: Tables, k: Key): Transfer
    requires k in db.idem && db.idem[k].transferId in db.transfers
  {
    db.transfers[db.idem[k].transferId]
  }

  /** Both requests take money from `w`, which is where the client looks. */
  ghost predicate BothFrom(first: State, w: WalletId) {
    forall c | c in first.calls && first.calls[c].op.Create? :: first.calls[c].op.req.from == w
  }

  lemma {:induction false} NoSeedsNoOpenings(run: seq<State>, i: nat)
    requires IsRun(run) && i < |run| && forall c | c in run[0].calls :: run[0].calls[c].op.Create?
    ensures run[i].opening == run[0].opening
  {
    hide Step, CanStep, Init, Coherent, SchemaOk, OneRecordEach, Digests, Apply;
    if i > 0 {
      NoSeedsNoOpenings(run, i - 1);
      OpsStay(run, i - 1);
      var c, a := RunStep(run, i);
      RunHasInv(run, i - 1);
      StepMoves(run[i - 1], c, a);
      StepRefinesSpec(run[i - 1], c, a);
    }
  }

  /** An ended call's transfer is in the history, with the time at which its transaction began. */
  lemma EndedCallHasRow(run: seq<State>, i: nat, c: CallId, d: CallId, at: Time)
    requires IsRun(run) && i < |run| && OneKeyEach(run[0], c, d) && Total(run[0].opening) <= MAX_INT64
    requires c in run[i].calls && HasEnded(run[i], c) && OnTime(run[i].calls[c], at)
    requires var req := run[0].calls[c].op.req; req.from in run[0].db.wallets && req.to in run[0].db.wallets
    ensures var k, db := run[0].calls[c].op.req.key, run[i].db;
      k in db.idem && db.idem[k].transferId in db.transfers && RowOf(db, k).createdAt == at
  {
    hide IsRun, WellFormed, Total;
    OpsStay(run, i);
    NoSeedsNoOpenings(run, i);
    TransferOrConflict(run, i, c);
    var e := RecordHasCall(run, i, run[0].calls[c].op.req.key);
    assert e == c;
  }

  lemma KeyOfEndedCall(run: seq<State>, i: nat, c: CallId, d: CallId, w: WalletId, k: Key)
    requires IsRun(run) && i < |run| && OneKeyEach(run[0], c, d) && BothFrom(run[0], w)
    requires k in run[i].db.idem && k !in run[0].db.idem
    ensures run[i].db.idem[k].transferId in run[i].db.transfers && RowOf(run[i].db, k).from == w
    ensures || (k == run[0].calls[c].op.req.key && HasEnded(run[i], c))
            || (k == run[0].calls[d].op.req.key && HasEnded(run[i], d))
  {
    hide IsRun, WellFormed;
    var e := RecordHasCall(run, i, k);
  }

  lemma KeyOfRow(db: Tables, id: TransferId) returns (k: Key)
    requires OneRecordEach(db) && id in db.transfers
    ensures k in db.idem && db.idem[k].transferId == id
  {
    k :| k in db.idem && db.idem[k].transferId == id;
  }

  lemma EveryRowHasItsKey(db: Tables, w: WalletId)
    requires OneRecordEach(db) && forall k | k in db.idem :: RowOf(db, k).from == w
    ensures WalletRows(db.transfers, w) == set k | k in db.idem :: RowOf(db, k)
  {
    var rows := set k | k in db.idem :: RowOf(db, k);
    assert forall k | k in db.idem :: RowOf(db, k) in WalletRows(db.transfers, w);
    hide OneRecordEach;
    forall t | t in WalletRows(db.transfers, w) ensures t in rows {
      var id :| id in db.transfers && db.transfers[id] == t;
      var k := KeyOfRow(db, id);
      assert RowOf(db, k) == t;
    }
  }

  /** In a run that begins with an empty history, the rows of `w` are those of the calls that have ended. */
  lemma RowsAreOfEndedCalls(run: seq<State>, i: nat, c: CallId, d: CallId, w: WalletId)
    requires IsRun(run) && i < |run| && OneKeyEach(run[0], c, d) && BothFrom(run[0], w) && run[0].db.idem == map[]
    ensures forall k | k in run[i].db.idem :: run[i].db.idem[k].transferId in run[i].db.transfers
    ensures WalletRows(run[i].db.transfers, w) == set k | k in run[i].db.idem :: RowOf(run[i].db, k)
    ensures forall k | k in run[i].db.idem ::
      || (k == run[0].calls[c].op.req.key && HasEnded(run[i], c))
      || (k == run[0].calls[d].op.req.key && HasEnded(run[i], d))
  {
    hide IsRun, WellFormed, SchemaOk, Digests, BothFrom, WalletRows, RowOf;
    var db := run[i].db;
    RunIsConsistent(run, i);
    forall k | k in db.idem
      ensures RowOf(db, k).from == w
      ensures || (k == run[0].calls[c].op.req.key && HasEnded(run[i], c))
              || (k == run[0].calls[d].op.req.key && HasEnded(run[i], d))
    {
      KeyOfEndedCall(run, i, c, d, w, k);
    }
    EveryRowHasItsKey(db, w);
  }

  // ----- the run -----

  /** Two wallets with money, two requests from the first to the second, nothing begun. */
  function Beginning(): State {
    var wallets: map<WalletId, Int64> := map["a" := 10, "b" := 10];
    State(Tables(wallets, map[], [], map[]), wallets, 2, map[], map[], map[],
          map[1 := NewCall("k1"), 2 := NewCall("k2")], [])
  }

  function NewCall(key: Key): Call {
    Call(Submit(Request(key, "a", "b", 1)), AtStart, 0, 0, 0, 0, NO_WRITES, 0, 0, None, 0)
  }

  lemma TotalAtFirst(wallets: map<WalletId, Int64>)
    requires wallets == map["a" := 10, "b" := 10]
    ensures Total(wallets) == 20
  {
    var none: map<WalletId, Int64> := map[];
    assert Amounts(none) == map[];
    TotalPut(none, "a", 10);
    TotalPut(none["a" := 10], "b", 10);
    assert wallets == none["a" := 10]["b" := 10];
  }

  lemma BeginningIsConsistent(wallets: map<WalletId, Int64>)
    requires forall w | w in wallets :: wallets[w] >= 0
    ensures Consistent(wallets, Tables(wallets, map[], [], map[])) && Digests(Tables(wallets, map[], [], map[]))
  {
    hide Total;
    var db := Tables(wallets, map[], [], map[]);
    forall w | w in wallets ensures BalanceExplained(wallets, db, w) {
      assert SignedRows(db.transfers, w) == map[];
    }
  }

  lemma BeginningIsInit()
    ensures Init(Beginning()) && Total(Beginning().opening) == 20
  {
    var s := Beginning();
    hide Consistent, Digests, Total;
    TotalAtFirst(s.opening);
    BeginningIsConsistent(s.opening);
  }

  /** Call 1 begins its transaction at time 5; call 2 begins at 7 and ends; then call 1 ends. */
  lemma TheRun() returns (run: seq<State>, i: nat)
    ensures IsRun(run) && run[0] == Beginning() && i < |run|
    ensures 2 in run[i].calls && HasEnded(run[i], 2) && OnTime(run[i].calls[2], 7) && !HasEnded(run[i], 1)
    ensures 1 in run[|run| - 1].calls && HasEnded(run[|run| - 1], 1) && OnTime(run[|run| - 1].calls[1], 5)
  {
    var first := Beginning();
    BeginningIsInit();
    OneKeyEachAtFirst();
    hide Init, Next, OneKeyEach, BothFrom, Total, OnTime, Beginning;
    run := DriveToBegin([first], 1, 2, 5);
    assert RunsAlone(run[|run| - 1], 2, 1);
    run := DriveToEnd(run, 2, 1, 7);
    i := |run| - 1;
    ghost var prefix := run;
    run := DriveToEnd(run, 1, 2, 5);
    assert run[i] == prefix[i];
  }

  lemma RowsOfTheRun(run: seq<State>, i: nat, j: nat) returns (newer: Transfer, older: Transfer)
    requires IsRun(run) && run[0] == Beginning() && i <= j < |run|
    requires 2 in run[i].calls && HasEnded(run[i], 2) && OnTime(run[i].calls[2], 7) && !HasEnded(run[i], 1)
    requires 1 in run[j].calls && HasEnded(run[j], 1) && OnTime(run[j].calls[1], 5)
    ensures newer.createdAt == 7 && older.createdAt == 5 && newer.id != older.id
    ensures WalletRows(run[i].db.transfers, "a") == {newer} && WalletRows(run[j].db.transfers, "a") == {newer, older}
  {
    BeginningIsInit();
    OneKeyEachAtFirst();
    hide IsRun, OneKeyEach, BothFrom, Total, OnTime, WalletRows, Beginning;
    RowsAreOfEndedCalls(run, i, 1, 2, "a");
    RowsAreOfEndedCalls(run, j, 1, 2, "a");
    EndedCallHasRow(run, i, 2, 1, 7);
    EndedCallHasRow(run, j, 1, 2, 5);
    CommittedRowsAreFinal(run, i, j);
    newer, older := RowOf(run[i].db, "k2"), RowOf(run[j].db, "k1");
    assert run[i].db.idem.Keys == {"k2"} && run[j].db.idem.Keys == {"k1", "k2"};
    RunRowIds(run, j);
  }

  /** What the README promises a client that pages while transfers commit, a consistent slice, fails in this run:
      it is shown the newer of two transfers, then the older, which was not committed when it began. */
  lemma LateCommitHappens() returns (run: seq<State>, at: seq<nat>, newer: Transfer, older: Transfer)
    ensures IsRun(run) && |at| == 3 && at[0] <= at[1] <= at[2] < |run|
    ensures IdsDistinct(WalletRows(run[at[0]].db.transfers, "a"))
    ensures Desc(WalletRows(run[at[0]].db.transfers, "a")) == [newer]
    ensures Growing(Snapshots(run, at, "a")) && Completes(Snapshots(run, at, "a"), None, 1)
    ensures WalkLive(Snapshots(run, at, "a"), None, 1) == [newer, older]
  {
    var i: nat;
    run, i := TheRun();
    hide IsRun, OnTime, WalletRows, Desc, Growing, Completes, WalkLive;
    var j := |run| - 1;
    at := [i, j, j];
    newer, older := RowsOfTheRun(run, i, j);
    assert Snapshots(run, at, "a") == [{newer}, {newer, older}, {newer, older}];
    LateCommitShowsUp(newer, older);
  }

  lemma OneKeyEachAtFirst()
    ensures var first := Beginning();
      && OneKeyEach(first, 1, 2) && OneKeyEach(first, 2, 1) && BothFrom(first, "a")
      && first.calls[1].pc.AtStart? && RunsAlone(first, 1, 2) && OnTime(first.calls[1], 5) && OnTime(first.calls[2], 7)
      && first.calls[1].op.req == Request("k1", "a", "b", 1) && first.calls[2].op.req == Request("k2", "a", "b", 1)
      && first.db.idem == map[] && "a" in first.db.wallets && "b" in first.db.wallets
  {
  }
}
