/** History pages read while the protocol runs. */
module RunHistory {
  import opened Base
  import opened Domain
  import opened Schema
  import opened Spec
  import opened Protocol
  import opened Invariant
  import opened Steps
  import opened Guarantees
  import opened Answers
  import opened History

  /** The rows of wallet `w` as committed at the given states of a run. */
  ghost function Snapshots(run: seq<State>, at: seq<nat>, w: WalletId): seq<set<Transfer>>
    requires forall j | 0 <= j < |at| :: at[j] < |run|
  {
    seq(|at|, j requires 0 <= j < |at| => WalletRows(run[at[j]].db.transfers, w))
  }

  lemma RunRowIds(run: seq<State>, i: nat)
    requires IsRun(run) && i < |run|
    ensures RowIds(run[i].db.transfers)
  {
    hide IsRun;
    RunIsConsistent(run, i);
    assert forall id | id in run[i].db.transfers :: TransferRowOk(run[i].db, id, run[i].db.transfers[id]);
  }

  lemma RowsStay(a: Tables, b: Tables, w: WalletId)
    requires Grows(a, b) && RowIds(a.transfers)
    ensures WalletRows(a.transfers, w) <= WalletRows(b.transfers, w)
  {
    forall t | t in WalletRows(a.transfers, w) ensures t in WalletRows(b.transfers, w) {
      assert b.transfers[t.id] == t;
    }
  }

  lemma SnapshotsGrow(run: seq<State>, at: seq<nat>, w: WalletId)
    requires IsRun(run) && at != [] && forall j | 0 <= j < |at| :: at[j] < |run|
    requires forall j | 0 <= j < |at| - 1 :: at[j] <= at[j + 1]
    ensures Growing(Snapshots(run, at, w))
  {
    hide IsRun, WalletRows;
    var snaps := Snapshots(run, at, w);
    forall j | 0 <= j < |at| ensures IdsDistinct(snaps[j]) {
      RunRowIds(run, at[j]);
      RowIdsAreDistinct(run[at[j]].db.transfers, w);
    }
    forall j | 0 <= j < |at| - 1 ensures snaps[j] <= snaps[j + 1] {
      CommittedRowsAreFinal(run, at[j], at[j + 1]);
      RunRowIds(run, at[j]);
      RowsStay(run[at[j]].db, run[at[j + 1]].db, w);
    }
  }

  /** A client pages through a wallet while transfers commit: if timestamps are distinct and its walk completes, it
      sees no row twice, and every row that was committed when it asked for its first page. */
  lemma LivePagingIsComplete(run: seq<State>, at: seq<nat>, w: WalletId, n: nat)
    requires IsRun(run) && at != [] && n > 0 && forall j | 0 <= j < |at| :: at[j] < |run|
    requires forall j | 0 <= j < |at| - 1 :: at[j] <= at[j + 1]
    requires forall j | 0 <= j < |at| :: DistinctTimes(WalletRows(run[at[j]].db.transfers, w))
    ensures Growing(Snapshots(run, at, w))
    ensures Completes(Snapshots(run, at, w), None, n) ==>
      && Sorted(WalkLive(Snapshots(run, at, w), None, n))
      && forall r | r in WalletRows(run[at[0]].db.transfers, w) :: r in WalkLive(Snapshots(run, at, w), None, n)
  {
    hide IsRun, WalletRows, DistinctTimes, WalkLive, Completes;
    SnapshotsGrow(run, at, w);
    if Completes(Snapshots(run, at, w), None, n) {
      LiveWalkIsSorted(Snapshots(run, at, w), None, n);
      LiveWalkMissesNothingOld(Snapshots(run, at, w), n);
    }
  }

  /** At any committed state, a wallet's drained history adds up to its balance. */
  lemma RunHistoryExplainsBalance(run: seq<State>, i: nat, w: WalletId, requested: int)
    requires IsRun(run) && i < |run| && w in run[i].db.wallets
    requires DistinctTimes(WalletRows(run[i].db.transfers, w))
    ensures w in run[i].opening && IdsDistinct(WalletRows(run[i].db.transfers, w))
    ensures Sorted(Desc(WalletRows(run[i].db.transfers, w)))
    ensures SumRows(Walk(Desc(WalletRows(run[i].db.transfers, w)), Clamped(requested)), w)
      == run[i].db.wallets[w] as int - run[i].opening[w] as int
  {
    hide IsRun, Clamped, Walk, SumRows;
    RunIsConsistent(run, i);
    HistoryExplainsBalance(run[i].opening, run[i].db, w, requested);
  }

  // ----- who sees a transfer -----

  lemma AnsweredIsCommitted(run: seq<State>, i: nat, j: nat, c: CallId, t: Transfer)
    requires IsRun(run) && i <= j < |run| && c in run[i].calls && run[i].calls[c].pc == Finished(Moved(t))
    requires run[i].calls[c].op.Create? || run[i].calls[c].op.GetTransfer?
    ensures t.id in run[j].db.transfers && run[j].db.transfers[t.id] == t
  {
    hide IsRun, Inv;
    if run[i].calls[c].op.Create? {
      RunHasInv(run, i);
      SuccessStaysOnRecord(run[i], c, run[i].calls[c].op.req.key, t);
      CommittedRowsAreFinal(run, i, j);
    } else {
      var k := TransferReadIsTrue(run, i, c, run[i].calls[c].op.transferId);
      RunRowIds(run, k);
      CommittedRowsAreFinal(run, k, j);
    }
  }

  /** Every transfer a client was told of, PROCESSED or FAILED, is from then on in the history of its source and of its
      destination, as it was told, and in nobody else's; with distinct timestamps a client that drains the pages sees
      it there, whatever the page size. */
  lemma AnsweredTransferIsListed(run: seq<State>, i: nat, j: nat, c: CallId, t: Transfer, w: WalletId, requested: int)
    requires IsRun(run) && i <= j < |run| && c in run[i].calls && run[i].calls[c].pc == Finished(Moved(t))
    requires run[i].calls[c].op.Create? || run[i].calls[c].op.GetTransfer?
    ensures var rows := WalletRows(run[j].db.transfers, w);
      && IdsDistinct(rows)
      && (t in rows <==> w == t.from || w == t.to)
      && (DistinctTimes(rows) ==>
            Sorted(Desc(rows)) && (t in Walk(Desc(rows), Clamped(requested)) <==> w == t.from || w == t.to))
  {
    hide IsRun, Clamped, Walk, Desc, Sorted;
    var rows := WalletRows(run[j].db.transfers, w);
    AnsweredIsCommitted(run, i, j, c, t);
    RunRowIds(run, j);
    RowIdsAreDistinct(run[j].db.transfers, w);
    SelectedMatches(run[j].db.transfers, w, None, t);
    NoCursorMatchesAll(rows);
    if DistinctTimes(rows) {
      DescIsSorted(rows);
      DistinctTimesMakeWalkComplete(rows, requested);
    }
  }
}
