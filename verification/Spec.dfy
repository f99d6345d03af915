/** What the service promises, with no concurrency in sight: each operation as one atomic change of the
    tables, over unbounded integers, and the invariant that every such change keeps. */
module Spec {
  import opened Base
  import opened Domain
  import opened RequestText
  import opened Schema

  datatype Op =
    | Create(req: Request, hash: string, first: WalletId, second: WalletId)
    | SeedWallet(wallet: WalletId, opening: Int64)
    | GetWallet(walletId: WalletId)
    | GetTransfer(transferId: TransferId)

  /** A request with what the code derives from it before touching the database: its digest, its lock order. */
  function Submit(req: Request): Op {
    var (first, second) := OrderedPair(req.from, req.to);
    Create(req, HashText(req), first, second)
  }

  datatype Answer =
    | Moved(transfer: Transfer)         // fresh or replayed, PROCESSED or FAILED
    | Seeded(opening: Int64)
    | Balance(balance: Int64)
    | Refused(error: ServiceError)
    | Nothing                           // neither a result nor an error
    | Aborted                           // rolled back or crashed; nothing happened
    | Unknown                           // the commit took effect but its acknowledgement was lost

  datatype Outcome = Outcome(db: Tables, answer: Answer)

  // ----- atomic operations -----

  function Replay(db: Tables, req: Request, hash: string): Answer
    requires req.key in db.idem
  {
    var rec := db.idem[req.key];
    if rec.hash != hash then Refused(IdempotencyConflict)
    else if rec.transferId in db.transfers then Moved(db.transfers[rec.transferId])
    else Refused(NotFound)
  }

  function NewTransfer(req: Request, id: TransferId, at: Time, state: TransferState): Transfer {
    Transfer(id, req.from, req.to, req.amount, state, if state.Failed? then InsufficientFunds else NoReason, at)
  }

  function Record(db: Tables, req: Request, hash: string, t: Transfer): Tables {
    db.(transfers := db.transfers[t.id := t], idem := db.idem[req.key := IdempotencyRecord(hash, t.id)])
  }

  function Entries(t: Transfer): seq<LedgerEntry> {
    if t.state.Processed?
    then [LedgerEntry(t.id, t.from, Debit, t.amount), LedgerEntry(t.id, t.to, Credit, t.amount)]
    else []
  }

  /** `id` and `at` are the new row's uuid and timestamp, chosen by the environment. */
  function TransferOnce(db: Tables, req: Request, hash: string, id: TransferId, at: Time): Outcome {
    if Validate(req).Some? then Outcome(db, Refused(Validate(req).value))
    else if req.key in db.idem then Outcome(db, Replay(db, req, hash))
    else if req.from !in db.wallets || req.to !in db.wallets then Outcome(db, Refused(NotFound))
    else if id in db.transfers then Outcome(db, Refused(Store(UniqueViolation)))
    else if db.wallets[req.from] < req.amount then
      var t := NewTransfer(req, id, at, Failed);
      Outcome(Record(db, req, hash, t), Moved(t))
    else if db.wallets[req.to] + req.amount > MAX_INT64 then Outcome(db, Refused(Store(CheckViolation)))
    else
      var t := NewTransfer(req, id, at, Processed);
      var moved := db.wallets[req.from := db.wallets[req.from] - req.amount]
                             [req.to := db.wallets[req.to] + req.amount];
      Outcome(Record(db, req, hash, t).(wallets := moved, ledger := db.ledger + Entries(t)), Moved(t))
  }

  function Seed(db: Tables, wallet: WalletId, opening: Int64): Outcome {
    if wallet == "" then Outcome(db, Refused(WalletNotFound))
    else if opening < 0 then Outcome(db, Refused(InvalidAmount))
    else if wallet in db.wallets then Outcome(db, Refused(Store(UniqueViolation)))
    else Outcome(db.(wallets := db.wallets[wallet := opening]), Seeded(opening))
  }

  function Apply(db: Tables, op: Op, id: TransferId, at: Time): Outcome {
    match op
    case Create(req, hash, _, _) => TransferOnce(db, req, hash, id, at)
    case SeedWallet(w, b) => Seed(db, w, b)
    case GetWallet(w) => Outcome(db, if w in db.wallets then Balance(db.wallets[w]) else Refused(NotFound))
    case GetTransfer(t) => Outcome(db, if t in db.transfers then Moved(db.transfers[t]) else Refused(NotFound))
  }

  // ----- ledger arithmetic -----

  function Signed(e: LedgerEntry, w: WalletId): int {
    if e.walletId != w then 0 else if e.kind.Credit? then e.amount else -(e.amount as int)
  }

  function Net(ledger: seq<LedgerEntry>, w: WalletId): int {
    if ledger == [] then 0 else Net(ledger[..|ledger| - 1], w) + Signed(ledger[|ledger| - 1], w)
  }

  function EntriesOf(ledger: seq<LedgerEntry>, id: TransferId): seq<LedgerEntry> {
    if ledger == [] then []
    else
      var rest := EntriesOf(ledger[..|ledger| - 1], id);
      var e := ledger[|ledger| - 1];
      if e.transferId == id then rest + [e] else rest
  }

  /** What a history row means for one wallet: only PROCESSED rows move money. */
  function SignedRow(t: Transfer, w: WalletId): int {
    if !t.state.Processed? then 0 else if t.to == w then t.amount else if t.from == w then -(t.amount as int) else 0
  }

  function SignedRows(transfers: map<TransferId, Transfer>, w: WalletId): map<TransferId, int> {
    map id | id in transfers :: SignedRow(transfers[id], w)
  }

  ghost function RowsNet(transfers: map<TransferId, Transfer>, w: WalletId): int {
    Sum(SignedRows(transfers, w))
  }

  function Amounts(balances: map<WalletId, Int64>): map<WalletId, int> {
    map w | w in balances :: balances[w] as int
  }

  ghost function Total(balances: map<WalletId, Int64>): int {
    Sum(Amounts(balances))
  }

  // ----- the invariant of committed tables -----

  /** `opening` is each wallet's seed balance. */
  ghost predicate Consistent(opening: map<WalletId, Int64>, db: Tables) {
    && SchemaOk(db)
    && opening.Keys == db.wallets.Keys
    && (forall w | w in opening :: BalanceExplained(opening, db, w))
    && Total(db.wallets) == Total(opening)
    && (forall id | id in db.transfers :: TransferSettled(db, db.transfers[id]))
    && OneRecordEach(db)
  }

  /** A stored balance is the opening balance plus credits minus debits, counted over the whole ledger or
      over the PROCESSED transfers. */
  ghost predicate BalanceExplained(opening: map<WalletId, Int64>, db: Tables, w: WalletId)
    requires w in opening && w in db.wallets
  {
    && opening[w] >= 0
    && db.wallets[w] == opening[w] + Net(db.ledger, w)
    && db.wallets[w] == opening[w] + RowsNet(db.transfers, w)
  }

  /** No PENDING row; a PROCESSED one has exactly its DEBIT and its CREDIT, a FAILED one no ledger row. */
  ghost predicate TransferSettled(db: Tables, t: Transfer) {
    && !t.state.Pending?
    && t.reason == (if t.state.Failed? then InsufficientFunds else NoReason)
    && EntriesOf(db.ledger, t.id) == Entries(t)
  }

  /** Idempotency records and transfers correspond one to one. */
  ghost predicate OneRecordEach(db: Tables) {
    && (forall k | k in db.idem :: db.idem[k].transferId in db.transfers)
    && (forall j, k | j in db.idem && k in db.idem && db.idem[j].transferId == db.idem[k].transferId :: j == k)
    && (forall id | id in db.transfers :: exists k :: k in db.idem && db.idem[k].transferId == id)
  }

  /** Each record holds the digest of what its transfer did. */
  ghost predicate Digests(db: Tables) {
    forall k | k in db.idem :: DigestOf(db, k)
  }

  ghost predicate DigestOf(db: Tables, k: Key)
    requires k in db.idem
  {
    && db.idem[k].transferId in db.transfers
    && var t := db.transfers[db.idem[k].transferId];
       db.idem[k].hash == HashText(Request(k, t.from, t.to, t.amount))
  }

  // ----- committed rows only accumulate -----

  /** Wallets never disappear; transfer rows, ledger rows and idempotency records never change or disappear. */
  ghost predicate Grows(a: Tables, b: Tables) {
    && a.wallets.Keys <= b.wallets.Keys
    && (forall id | id in a.transfers :: id in b.transfers && b.transfers[id] == a.transfers[id])
    && (forall k | k in a.idem :: k in b.idem && b.idem[k] == a.idem[k])
    && a.ledger <= b.ledger
  }

  lemma GrowsTransitive(a: Tables, b: Tables, c: Tables)
    requires Grows(a, b) && Grows(b, c)
    ensures Grows(a, c)
  {
  }

  lemma ApplyGrows(db: Tables, op: Op, id: TransferId, at: Time)
    ensures Grows(db, Apply(db, op, id, at).db)
  {
  }

  // ----- every operation keeps the invariant -----

  lemma NetAppend(ledger: seq<LedgerEntry>, e: LedgerEntry, w: WalletId)
    ensures Net(ledger + [e], w) == Net(ledger, w) + Signed(e, w)
  {
    assert (ledger + [e])[..|ledger + [e]| - 1] == ledger;
  }

  lemma EntriesOfAppend(ledger: seq<LedgerEntry>, e: LedgerEntry, id: TransferId)
    ensures EntriesOf(ledger + [e], id) == EntriesOf(ledger, id) + if e.transferId == id then [e] else []
  {
    assert (ledger + [e])[..|ledger + [e]| - 1] == ledger;
  }

  lemma {:induction false} NoEntriesOfUnknown(ledger: seq<LedgerEntry>, id: TransferId)
    requires forall i | 0 <= i < |ledger| :: ledger[i].transferId != id
    ensures EntriesOf(ledger, id) == []
  {
    if ledger != [] {
      NoEntriesOfUnknown(ledger[..|ledger| - 1], id);
    }
  }

  lemma NoEntriesYet(db: Tables, id: TransferId)
    requires SchemaOk(db) && id !in db.transfers
    ensures forall i | 0 <= i < |db.ledger| :: db.ledger[i].transferId != id
  {
    assert forall i | 0 <= i < |db.ledger| :: EntryRowOk(db, db.ledger[i]);
  }

  /** Appending the pair of one PROCESSED transfer. */
  lemma PairAppended(ledger: seq<LedgerEntry>, t: Transfer, w: WalletId, id: TransferId)
    requires t.from != t.to
    ensures Net(ledger + Entries(t), w) == Net(ledger, w) + SignedRow(t, w)
    ensures EntriesOf(ledger + Entries(t), id) == EntriesOf(ledger, id) + if t.id == id then Entries(t) else []
  {
    if t.state.Processed? {
      var d, c := Entries(t)[0], Entries(t)[1];
      assert ledger + Entries(t) == ledger + [d] + [c];
      NetAppend(ledger, d, w);
      NetAppend(ledger + [d], c, w);
      EntriesOfAppend(ledger, d, id);
      EntriesOfAppend(ledger + [d], c, id);
    } else {
      assert ledger + Entries(t) == ledger;
    }
  }

  lemma RowAdded(transfers: map<TransferId, Transfer>, t: Transfer, w: WalletId)
    requires t.id !in transfers
    ensures RowsNet(transfers[t.id := t], w) == RowsNet(transfers, w) + SignedRow(t, w)
  {
    assert SignedRows(transfers[t.id := t], w) == SignedRows(transfers, w)[t.id := SignedRow(t, w)];
    SumPut(SignedRows(transfers, w), t.id, SignedRow(t, w));
  }

  lemma TotalPut(balances: map<WalletId, Int64>, w: WalletId, b: Int64)
    ensures Total(balances[w := b]) == Total(balances) - (if w in balances then balances[w] as int else 0) + b
  {
    assert Amounts(balances[w := b]) == Amounts(balances)[w := b as int];
    SumPut(Amounts(balances), w, b);
  }

  /** A fresh transfer: its outcome is one row, one record, its ledger pair, and balances shifted by that row. */
  ghost predicate Settles(db: Tables, after: Tables, req: Request, hash: string, t: Transfer) {
    && WellFormed(req)
    && req.from in db.wallets && req.to in db.wallets
    && t.id !in db.transfers && req.key !in db.idem
    && !t.state.Pending? && t == NewTransfer(req, t.id, t.createdAt, t.state)
    && after.transfers == db.transfers[t.id := t]
    && after.idem == db.idem[req.key := IdempotencyRecord(hash, t.id)]
    && after.ledger == db.ledger + Entries(t)
    && after.wallets.Keys == db.wallets.Keys
    && (forall w | w in db.wallets :: after.wallets[w] == db.wallets[w] + SignedRow(t, w) && after.wallets[w] >= 0)
  }

  lemma TransferOnceSettles(db: Tables, req: Request, hash: string, id: TransferId, at: Time)
    requires forall w | w in db.wallets :: db.wallets[w] >= 0
    ensures var o := TransferOnce(db, req, hash, id, at);
      if o.answer.Moved? && req.key !in db.idem
      then o.answer.transfer.id == id && Settles(db, o.db, req, hash, o.answer.transfer)
      else o.db == db
  {
  }

  lemma SettlesKeepsRecords(db: Tables, after: Tables, req: Request, hash: string, t: Transfer)
    requires SchemaOk(db) && OneRecordEach(db) && Settles(db, after, req, hash, t)
    ensures OneRecordEach(after)
  {
    hide WellFormed, NewTransfer, EntryRowOk, SignedRow, Entries;
    forall id | id in after.transfers
      ensures exists k :: k in after.idem && after.idem[k].transferId == id
    {
      if id == t.id {
        assert after.idem[req.key].transferId == id;
      } else {
        var k :| k in db.idem && db.idem[k].transferId == id;
        assert k in after.idem && after.idem[k].transferId == id;
      }
    }
    assert forall k | k in db.idem :: db.idem[k].transferId != t.id;
  }

  lemma SettlesKeepsSchema(db: Tables, after: Tables, req: Request, hash: string, t: Transfer)
    requires SchemaOk(db) && Settles(db, after, req, hash, t)
    ensures SchemaOk(after)
    ensures EntriesOf(db.ledger, t.id) == []
  {
    hide SignedRow;
    assert forall i | 0 <= i < |db.ledger| :: EntryRowOk(db, db.ledger[i]) && db.ledger[i].transferId != t.id;
    NoEntriesOfUnknown(db.ledger, t.id);
    forall id | id in after.transfers
      ensures TransferRowOk(after, id, after.transfers[id])
    {
      assert id in db.transfers ==> TransferRowOk(db, id, db.transfers[id]);
    }
    forall i, j | 0 <= i < j < |after.ledger|
      ensures !SameSlot(after.ledger[i], after.ledger[j])
    {
      assert j < |db.ledger| ==> !SameSlot(db.ledger[i], db.ledger[j]);
    }
  }

  lemma SettlesKeepsTotal(db: Tables, after: Tables, req: Request, hash: string, t: Transfer)
    requires Settles(db, after, req, hash, t)
    ensures Total(after.wallets) == Total(db.wallets)
  {
    var mid := db.wallets[req.from := after.wallets[req.from]];
    TotalPut(db.wallets, req.from, after.wallets[req.from]);
    TotalPut(mid, req.to, after.wallets[req.to]);
    assert after.wallets == mid[req.to := after.wallets[req.to]];
  }

  lemma SettlesKeepsBalance(opening: map<WalletId, Int64>, db: Tables, after: Tables, req: Request, hash: string,
                            t: Transfer, w: WalletId)
    requires Settles(db, after, req, hash, t) && w in opening && w in db.wallets && BalanceExplained(opening, db, w)
    ensures BalanceExplained(opening, after, w)
  {
    PairAppended(db.ledger, t, w, t.id);
    RowAdded(db.transfers, t, w);
  }

  lemma SettlesKeepsSettled(db: Tables, after: Tables, req: Request, hash: string, t: Transfer, id: TransferId)
    requires Settles(db, after, req, hash, t) && EntriesOf(db.ledger, t.id) == []
    requires id in after.transfers && after.transfers[id].id == id
    requires id in db.transfers ==> TransferSettled(db, db.transfers[id])
    ensures TransferSettled(after, after.transfers[id])
  {
    PairAppended(db.ledger, t, t.from, id);
  }

  lemma SettlesKeepsConsistent(opening: map<WalletId, Int64>, db: Tables, after: Tables, req: Request, hash: string,
                               t: Transfer)
    requires Consistent(opening, db) && Settles(db, after, req, hash, t)
    ensures Consistent(opening, after)
  {
    SettlesKeepsSchema(db, after, req, hash, t);
    SettlesKeepsRecords(db, after, req, hash, t);
    SettlesKeepsTotal(db, after, req, hash, t);
    forall w | w in opening
      ensures BalanceExplained(opening, after, w)
    {
      SettlesKeepsBalance(opening, db, after, req, hash, t, w);
    }
    forall id | id in after.transfers
      ensures TransferSettled(after, after.transfers[id])
    {
      assert TransferRowOk(after, id, after.transfers[id]);
      SettlesKeepsSettled(db, after, req, hash, t, id);
    }
  }

  function OpeningAfter(opening: map<WalletId, Int64>, db: Tables, op: Op): map<WalletId, Int64> {
    if op.SeedWallet? && Seed(db, op.wallet, op.opening).answer.Seeded? then opening[op.wallet := op.opening]
    else opening
  }

  lemma SeedKeepsRows(db: Tables, after: Tables, wallet: WalletId, b: Int64)
    requires SchemaOk(db) && wallet !in db.wallets && b >= 0 && after == db.(wallets := db.wallets[wallet := b])
    ensures SchemaOk(after)
  {
    assert Exec(db, InsertWallet(wallet, b)) == after;
    AcceptedStatementKeepsSchema(db, InsertWallet(wallet, b));
  }

  lemma SeedKeepsConsistent(opening: map<WalletId, Int64>, db: Tables, wallet: WalletId, b: Int64)
    requires Consistent(opening, db) && Seed(db, wallet, b).answer.Seeded?
    ensures Consistent(opening[wallet := b], Seed(db, wallet, b).db)
  {
    hide BalanceExplained, Total;
    var after, seeds := Seed(db, wallet, b).db, opening[wallet := b];
    SeedKeepsRows(db, after, wallet, b);
    TotalPut(db.wallets, wallet, b);
    TotalPut(opening, wallet, b);
    forall id | id in after.transfers
      ensures TransferSettled(after, after.transfers[id])
    {
      assert TransferSettled(db, db.transfers[id]);
    }
    StrangerHasNoHistory(db, wallet);
    forall w | w in seeds
      ensures BalanceExplained(seeds, after, w)
    {
      SeedKeepsBalance(opening, db, wallet, b, w);
    }
  }

  lemma SeedKeepsBalance(opening: map<WalletId, Int64>, db: Tables, wallet: WalletId, b: Int64, w: WalletId)
    requires b >= 0 && wallet !in db.wallets && opening.Keys == db.wallets.Keys && (w == wallet || w in opening)
    requires w == wallet ==> Net(db.ledger, w) == 0 && RowsNet(db.transfers, w) == 0
    requires w in opening ==> BalanceExplained(opening, db, w)
    ensures BalanceExplained(opening[wallet := b], db.(wallets := db.wallets[wallet := b]), w)
  {
  }

  lemma StrangerHasNoHistory(db: Tables, w: WalletId)
    requires SchemaOk(db) && w !in db.wallets
    ensures Net(db.ledger, w) == 0 && RowsNet(db.transfers, w) == 0
  {
    assert forall i | 0 <= i < |db.ledger| :: EntryRowOk(db, db.ledger[i]) && db.ledger[i].walletId != w;
    NetOfStranger(db.ledger, w);
    assert forall id | id in db.transfers ::
      TransferRowOk(db, id, db.transfers[id]) && SignedRow(db.transfers[id], w) == 0;
    SumOfZeros(SignedRows(db.transfers, w));
  }

  lemma {:induction false} NetOfStranger(ledger: seq<LedgerEntry>, w: WalletId)
    requires forall i | 0 <= i < |ledger| :: ledger[i].walletId != w
    ensures Net(ledger, w) == 0
  {
    if ledger != [] {
      NetOfStranger(ledger[..|ledger| - 1], w);
    }
  }

  lemma {:induction false} SumOfZeros<K>(m: map<K, int>)
    requires forall k | k in m :: m[k] == 0
    ensures Sum(m) == 0
    decreases |m|
  {
    if m != map[] {
      var k :| k in m;
      SumWithout(m, k);
      SumOfZeros(m - {k});
    }
  }

  /** Every operation, on any consistent tables and for any uuid and timestamp, keeps the invariant:
      conservation, balance = opening + ledger, settled transfers, one record per transfer, the schema. */
  lemma ApplyKeepsConsistent(opening: map<WalletId, Int64>, db: Tables, op: Op, id: TransferId, at: Time)
    requires Consistent(opening, db)
    ensures Consistent(OpeningAfter(opening, db, op), Apply(db, op, id, at).db)
  {
    match op
    case Create(req, hash, _, _) =>
      TransferOnceSettles(db, req, hash, id, at);
      var o := TransferOnce(db, req, hash, id, at);
      if o.db != db {
        SettlesKeepsConsistent(opening, db, o.db, req, hash, o.answer.transfer);
      }
    case SeedWallet(w, b) =>
      if Seed(db, w, b).answer.Seeded? {
        SeedKeepsConsistent(opening, db, w, b);
      }
    case GetWallet(_) =>
    case GetTransfer(_) =>
  }

  // ----- what the answers of a transfer say -----

  /** What a fresh transfer found and left: it is FAILED exactly if the source was short of funds. */
  ghost predicate MovedNow(before: Tables, after: Tables, req: Request, hash: string, t: Transfer) {
    && req.from in before.wallets && req.to in before.wallets && t.id !in before.transfers
    && t.from == req.from && t.to == req.to && t.amount == req.amount
    && (t.state == Failed <==> before.wallets[req.from] < req.amount)
    && (t.state == Processed <==> before.wallets[req.from] >= req.amount)
    && after.transfers == before.transfers[t.id := t]
    && after.idem == before.idem[req.key := IdempotencyRecord(hash, t.id)]
    && after.ledger == before.ledger + (
         if t.state == Processed
         then [LedgerEntry(t.id, t.from, Debit, t.amount), LedgerEntry(t.id, t.to, Credit, t.amount)]
         else [])
    && after.wallets.Keys == before.wallets.Keys
    && forall w | w in before.wallets ::
         after.wallets[w] as int - before.wallets[w] as int ==
           if t.state == Processed && w == req.from then -(req.amount as int)
           else if t.state == Processed && w == req.to then req.amount as int
           else 0
  }

  /** What each answer to a transfer request says about the tables before and after its moment. */
  ghost predicate TransferAnswerIsTrue(before: Tables, after: Tables, req: Request, hash: string, answer: Answer) {
    && (answer.Moved? && req.key !in before.idem ==> MovedNow(before, after, req, hash, answer.transfer))
    && (!answer.Moved? || req.key in before.idem ==> after == before)
    && match answer
       case Moved(t) =>
         req.key in before.idem ==> before.idem[req.key].hash == hash && OnRecord(before, req.key, t)
       case Refused(IdempotencyConflict) => req.key in before.idem && before.idem[req.key].hash != hash
       case Refused(NotFound) =>
         req.key !in before.idem && (req.from !in before.wallets || req.to !in before.wallets)
       case Refused(Store(CheckViolation)) =>
         && req.key !in before.idem && req.from in before.wallets && req.to in before.wallets
         && before.wallets[req.from] >= req.amount && before.wallets[req.to] + req.amount > MAX_INT64
       case Refused(Store(UniqueViolation)) => true
       case Refused(e) => NamesFirstBrokenRule(e, req)
       case _ => false
  }

  lemma SpecAnswerIsTrue(db: Tables, req: Request, hash: string, id: TransferId, at: Time)
    requires SchemaOk(db)
    ensures var o := TransferOnce(db, req, hash, id, at); TransferAnswerIsTrue(db, o.db, req, hash, o.answer)
  {
    ValidateDecides(req);
    if req.key in db.idem && db.idem[req.key].transferId in db.transfers {
      assert TransferRowOk(db, db.idem[req.key].transferId, db.transfers[db.idem[req.key].transferId]);
    }
  }

  lemma OnlyWellFormedMove(db: Tables, req: Request, hash: string, id: TransferId, at: Time)
    ensures !WellFormed(req) ==>
      var o := TransferOnce(db, req, hash, id, at);
      o.db == db && o.answer.Refused? && NamesFirstBrokenRule(o.answer.error, req)
  {
    ValidateDecides(req);
  }

  // ----- exactly once -----

  /** A success is on record: the key's record names exactly the transfer that was answered. */
  ghost predicate OnRecord(db: Tables, key: Key, t: Transfer) {
    && key in db.idem
    && db.idem[key].transferId == t.id
    && t.id in db.transfers && db.transfers[t.id] == t
  }

  lemma SuccessIsOnRecord(db: Tables, req: Request, hash: string, id: TransferId, at: Time)
    requires forall t | t in db.transfers :: db.transfers[t].id == t
    requires TransferOnce(db, req, hash, id, at).answer.Moved?
    ensures var o := TransferOnce(db, req, hash, id, at);
      OnRecord(o.db, req.key, o.answer.transfer) && o.db.idem[req.key].hash == hash
  {
  }

  lemma RecordStays(a: Tables, b: Tables, key: Key, t: Transfer)
    requires OnRecord(a, key, t) && Grows(a, b)
    ensures OnRecord(b, key, t) && b.idem[key] == a.idem[key]
  {
  }

  /** Once a key succeeded, any later request with that key leaves the tables alone; one with the same digest is
      answered with the very same transfer, whatever happened to the balances in between, any other is a conflict. */
  lemma RetryRepeatsTheAnswer(db: Tables, req: Request, hash: string, id: TransferId, at: Time,
                              later: Tables, retry: Request, hash': string, id': TransferId, at': Time)
    requires forall t | t in db.transfers :: db.transfers[t].id == t
    requires TransferOnce(db, req, hash, id, at).answer.Moved?
    requires Grows(TransferOnce(db, req, hash, id, at).db, later)
    requires retry.key == req.key && WellFormed(retry)
    ensures TransferOnce(later, retry, hash', id', at') ==
      Outcome(later, if hash' == hash then TransferOnce(db, req, hash, id, at).answer else Refused(IdempotencyConflict))
  {
    var o := TransferOnce(db, req, hash, id, at);
    SuccessIsOnRecord(db, req, hash, id, at);
    RecordStays(o.db, later, req.key, o.answer.transfer);
  }

  /** A fresh record gets the digest of its own transfer, and no other record changes. */
  lemma ApplyKeepsDigests(db: Tables, op: Op, id: TransferId, at: Time)
    requires Digests(db) && SchemaOk(db) && (op.Create? ==> op.hash == HashText(op.req))
    ensures Digests(Apply(db, op, id, at).db)
  {
    var after := Apply(db, op, id, at).db;
    forall k | k in after.idem
      ensures DigestOf(after, k)
    {
      if k in db.idem {
        assert DigestOf(db, k);
        ApplyGrows(db, op, id, at);
      }
    }
  }
}
