/** The four tables, their constraints, and the statements the repositories send.

    `Exec` is the meaning of a statement on plain tables. A transaction does not touch the tables: it
    collects a private `WriteSet`, sees `View(tables, writes)`, and its statements run through `ExecIn`. */
module Schema {
  import opened Base
  import opened Domain

  datatype IdempotencyRecord = IdempotencyRecord(hash: string, transferId: TransferId)

  datatype Tables = Tables(
    wallets: map<WalletId, Int64>,
    transfers: map<TransferId, Transfer>,
    ledger: seq<LedgerEntry>,
    idem: map<Key, IdempotencyRecord>)

  datatype Statement =
    | InsertWallet(wallet: WalletId, opening: Int64)
    | InsertTransfer(row: Transfer)
    | InsertKey(key: Key, record: IdempotencyRecord)
    | SetBalance(id: WalletId, balance: Int64)
    | InsertEntry(entry: LedgerEntry)
    | SetState(transferId: TransferId, state: TransferState, reason: FailureReason)

  // ----- constraints of 0001_init.up.sql -----

  ghost predicate SchemaOk(db: Tables) {
    && (forall w | w in db.wallets :: db.wallets[w] >= 0)
    && (forall id | id in db.transfers :: TransferRowOk(db, id, db.transfers[id]))
    && (forall i | 0 <= i < |db.ledger| :: EntryRowOk(db, db.ledger[i]))
    && (forall i, j | 0 <= i < j < |db.ledger| :: !SameSlot(db.ledger[i], db.ledger[j]))
    && (forall k | k in db.idem :: db.idem[k].transferId in db.transfers)
  }

  ghost predicate TransferRowOk(db: Tables, id: TransferId, t: Transfer) {
    t.id == id && t.amount > 0 && t.from != t.to && t.from in db.wallets && t.to in db.wallets
  }

  ghost predicate EntryRowOk(db: Tables, e: LedgerEntry) {
    e.amount > 0 && e.transferId in db.transfers && e.walletId in db.wallets
  }

  /** UNIQUE (transfer_id, type). */
  predicate SameSlot(a: LedgerEntry, b: LedgerEntry) {
    a.transferId == b.transferId && a.kind == b.kind
  }

  predicate SlotTaken(ledger: seq<LedgerEntry>, e: LedgerEntry) {
    exists i | 0 <= i < |ledger| :: SameSlot(ledger[i], e)
  }

  // ----- statements on plain tables -----

  function Refusal(db: Tables, st: Statement): Option<SqlError> {
    match st
    case InsertWallet(w, b) =>
      if b < 0 then Some(CheckViolation)
      else if w in db.wallets then Some(UniqueViolation)
      else None
    case InsertTransfer(t) =>
      if t.amount <= 0 || t.from == t.to then Some(CheckViolation)
      else if t.id in db.transfers then Some(UniqueViolation)
      else if t.from !in db.wallets || t.to !in db.wallets then Some(ForeignKeyViolation)
      else None
    case InsertKey(k, rec) =>
      if k in db.idem then Some(UniqueViolation)
      else if rec.transferId !in db.transfers then Some(ForeignKeyViolation)
      else None
    case SetBalance(w, b) =>
      if w !in db.wallets then Some(NoRow)
      else if b < 0 then Some(CheckViolation)
      else None
    case InsertEntry(e) =>
      if e.amount <= 0 then Some(CheckViolation)
      else if SlotTaken(db.ledger, e) then Some(UniqueViolation)
      else if e.transferId !in db.transfers || e.walletId !in db.wallets then Some(ForeignKeyViolation)
      else None
    case SetState(id, _, _) =>
      if id !in db.transfers then Some(NoRow) else None
  }

  function Exec(db: Tables, st: Statement): Tables
    requires Refusal(db, st).None?
  {
    match st
    case InsertWallet(w, b) => db.(wallets := db.wallets[w := b])
    case InsertTransfer(t) => db.(transfers := db.transfers[t.id := t])
    case InsertKey(k, rec) => db.(idem := db.idem[k := rec])
    case SetBalance(w, b) => db.(wallets := db.wallets[w := b])
    case InsertEntry(e) => db.(ledger := db.ledger + [e])
    case SetState(id, s, why) => db.(transfers := db.transfers[id := db.transfers[id].(state := s, reason := why)])
  }

  /** Whatever is accepted leaves tables that obey every CHECK, UNIQUE, PRIMARY KEY and REFERENCES clause. */
  lemma AcceptedStatementKeepsSchema(db: Tables, st: Statement)
    requires SchemaOk(db) && Refusal(db, st).None?
    ensures SchemaOk(Exec(db, st))
  {
    var after := Exec(db, st);
    forall id | id in after.transfers
      ensures TransferRowOk(after, id, after.transfers[id])
    {
      assert id in db.transfers ==> TransferRowOk(db, id, db.transfers[id]);
    }
    forall i | 0 <= i < |after.ledger|
      ensures EntryRowOk(after, after.ledger[i])
    {
      assert i < |db.ledger| ==> EntryRowOk(db, db.ledger[i]);
    }
    forall i, j | 0 <= i < j < |after.ledger|
      ensures !SameSlot(after.ledger[i], after.ledger[j])
    {
      assert j < |db.ledger| ==> !SameSlot(db.ledger[i], db.ledger[j]);
    }
  }

  /** Running a list of statements directly, stopping at the first refusal. */
  function ExecAll(db: Tables, sts: seq<Statement>): Result<Tables, SqlError> {
    if sts == [] then Ok(db)
    else
      match ExecAll(db, sts[..|sts| - 1])
      case Err(e) => Err(e)
      case Ok(mid) =>
        match Refusal(mid, sts[|sts| - 1])
        case Some(e) => Err(e)
        case None => Ok(Exec(mid, sts[|sts| - 1]))
  }

  lemma ExecAllAppend(db: Tables, sts: seq<Statement>, st: Statement)
    requires ExecAll(db, sts).Ok? && Refusal(ExecAll(db, sts).value, st).None?
    ensures ExecAll(db, sts + [st]) == Ok(Exec(ExecAll(db, sts).value, st))
  {
    assert (sts + [st])[..|sts + [st]| - 1] == sts;
  }

  // ----- transactions: private writes over committed tables -----

  datatype WriteSet = WriteSet(
    wallets: map<WalletId, Int64>,
    transfers: map<TransferId, Transfer>,
    ledger: seq<LedgerEntry>,
    idem: map<Key, IdempotencyRecord>)

  const NO_WRITES: WriteSet := WriteSet(map[], map[], [], map[])

  /** READ COMMITTED: a statement sees what is committed when it runs, overlaid with the transaction's own writes.
      Committing replaces the tables by this view. */
  function View(db: Tables, ws: WriteSet): Tables {
    Tables(db.wallets + ws.wallets, db.transfers + ws.transfers, db.ledger + ws.ledger, db.idem + ws.idem)
  }

  function ExecIn(db: Tables, ws: WriteSet, st: Statement): WriteSet
    requires Refusal(View(db, ws), st).None?
  {
    match st
    case InsertWallet(w, b) => ws.(wallets := ws.wallets[w := b])
    case InsertTransfer(t) => ws.(transfers := ws.transfers[t.id := t])
    case InsertKey(k, rec) => ws.(idem := ws.idem[k := rec])
    case SetBalance(w, b) => ws.(wallets := ws.wallets[w := b])
    case InsertEntry(e) => ws.(ledger := ws.ledger + [e])
    case SetState(id, s, why) =>
      ws.(transfers := ws.transfers[id := View(db, ws).transfers[id].(state := s, reason := why)])
  }

  /** The overlay refines direct execution: what the transaction sees afterwards is what the statement
      would have made of what it saw before. */
  lemma OverlayRefinesExec(db: Tables, ws: WriteSet, st: Statement)
    requires Refusal(View(db, ws), st).None?
    ensures View(db, ExecIn(db, ws, st)) == Exec(View(db, ws), st)
  {
    match st
    case InsertWallet(w, b) => OverlayPut(db.wallets, ws.wallets, w, b);
    case InsertTransfer(t) => OverlayPut(db.transfers, ws.transfers, t.id, t);
    case InsertKey(k, rec) => OverlayPut(db.idem, ws.idem, k, rec);
    case SetBalance(w, b) => OverlayPut(db.wallets, ws.wallets, w, b);
    case InsertEntry(e) => assert db.ledger + (ws.ledger + [e]) == db.ledger + ws.ledger + [e];
    case SetState(id, s, why) =>
      OverlayPut(db.transfers, ws.transfers, id, View(db, ws).transfers[id].(state := s, reason := why));
  }

  lemma OverlayPut<K, V>(base: map<K, V>, over: map<K, V>, k: K, v: V)
    ensures base + over[k := v] == (base + over)[k := v]
  {
  }

  lemma NothingWrittenNothingSeen(db: Tables)
    ensures View(db, NO_WRITES) == db
  {
    assert db.wallets + map[] == db.wallets && db.transfers + map[] == db.transfers && db.idem + map[] == db.idem;
  }
}
