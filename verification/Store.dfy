/** The service code as it is written: statement by statement on one connection, with the transaction manager's
    exit paths and with faults. Sequentially, it is the atomic transfer. */
module Store {
  import opened Base
  import opened Domain
  import opened RequestText
  import opened Schema
  import opened Spec

  // ----- errors -----

  datatype ErrorCode = Service(error: ServiceError) | IdempotencyExists | Driver | TxDone

  /** Go's error chains: `%w` wraps, `%v` only adds text. */
  datatype Error = Leaf(code: ErrorCode) | Wrapped(text: string, inner: Error)

  function Cause(e: Error): ErrorCode {
    match e
    case Leaf(c) => c
    case Wrapped(_, inner) => Cause(inner)
  }

  /** errors.Is for a sentinel. */
  predicate Is(e: Error, code: ErrorCode) { Cause(e) == code }

  // ----- connection and transactions -----

  /** The committed tables. */
  class Database {
    var tables: Tables

    constructor (tables: Tables)
      ensures this.tables == tables
    {
      this.tables := tables;
    }
  }

  /** An open transaction. `fuse` is the number of statements its connection still survives; a statement that
      fails leaves the transaction `broken`, so that it can only be rolled back. */
  class Tx {
    const db: Database
    var ws: WriteSet
    var fuse: nat
    var broken: bool

    constructor (db: Database, fuse: nat)
      ensures this.db == db && this.ws == NO_WRITES && this.fuse == fuse && !this.broken
    {
      this.db := db;
      this.ws := NO_WRITES;
      this.fuse := fuse;
      this.broken := false;
    }

    function Seen(): Tables
      reads this, db
    {
      View(db.tables, ws)
    }

    predicate Alive()
      reads this
    {
      !broken && fuse > 0
    }

    /** One statement goes over the wire; false if there is no usable connection. */
    method Touch() returns (ok: bool)
      modifies this`fuse, this`broken
      ensures ok == old(Alive())
      ensures ok ==> !broken && fuse == old(fuse) - 1
      ensures !ok ==> broken && fuse == old(fuse)
    {
      if broken || fuse == 0 {
        broken := true;
        return false;
      }
      fuse := fuse - 1;
      return true;
    }

    /** ExecContext of a writing statement. */
    method Send(st: Statement) returns (err: Option<Error>)
      modifies this`ws, this`fuse, this`broken
      ensures err.None? ==> old(Alive()) && !broken && fuse == old(fuse) - 1
      ensures err.None? ==> Refusal(old(Seen()), st).None? && Seen() == Exec(old(Seen()), st)
      ensures err.Some? ==> ws == old(ws) && Seen() == old(Seen())
      ensures !old(Alive()) ==> err == Some(Leaf(Driver)) && broken
      ensures old(Alive()) && err.Some? ==>
        && Refusal(old(Seen()), st).Some?
        && err == Some(Leaf(Service(Store(Refusal(old(Seen()), st).value))))
        && broken == !Refusal(old(Seen()), st).value.NoRow?
        && fuse == old(fuse) - 1
    {
      var ok := Touch();
      if !ok {
        return Some(Leaf(Driver));
      }
      match Refusal(Seen(), st)
      case None =>
        OverlayRefinesExec(db.tables, ws, st);
        ws := ExecIn(db.tables, ws, st);
        return None;
      case Some(e) =>
        broken := !e.NoRow?;
        return Some(Leaf(Service(Store(e))));
    }

    /** SELECT balance, with or without FOR UPDATE: nobody else is there to wait for. */
    method ReadBalance(w: WalletId) returns (r: Result<Int64, Error>)
      modifies this`fuse, this`broken
      ensures !old(Alive()) ==> r == Err(Leaf(Driver)) && broken
      ensures old(Alive()) ==> !broken && fuse == old(fuse) - 1
      ensures old(Alive()) ==>
        r == if w in Seen().wallets then Ok(Seen().wallets[w]) else Err(Leaf(Service(NotFound)))
    {
      var ok := Touch();
      if !ok {
        return Err(Leaf(Driver));
      }
      if w !in Seen().wallets {
        return Err(Leaf(Service(NotFound)));
      }
      return Ok(Seen().wallets[w]);
    }
  }

  // ----- RunInTx -----

  datatype CommitFate = Commits | CommitFails | AckLost

  /** What the environment does to one transaction. */
  datatype Faults = Faults(beginFails: bool, fuse: nat, rollbackError: Option<ErrorCode>, commit: CommitFate)

  predicate Harmless(f: Faults) { !f.beginFails && f.fuse >= 11 && f.commit.Commits? }

  /** The error of the callback, with the text of a real rollback error added. */
  function AfterRollback(fnErr: Error, faults: Faults): Error {
    if faults.rollbackError in {None, Some(TxDone)} then fnErr else Wrapped("; rollback", fnErr)
  }

  /** Exit paths (b) and (c) of the deferred closure: an error rolls back and keeps its identity, nil commits. */
  method Close(tx: Tx, fnErr: Option<Error>, faults: Faults) returns (err: Option<Error>)
    modifies tx.db, tx
    ensures tx.db.tables ==
      if fnErr.None? && !old(tx.broken) && !faults.commit.CommitFails? then old(tx.Seen()) else old(tx.db.tables)
    ensures err.None? <==> fnErr.None? && !old(tx.broken) && faults.commit.Commits?
    ensures fnErr.Some? ==> err == Some(AfterRollback(fnErr.value, faults)) && Cause(err.value) == Cause(fnErr.value)
    ensures fnErr.None? && err.Some? ==> Is(err.value, Driver)
  {
    err := fnErr;
    if err.Some? {
      if faults.rollbackError.Some? && faults.rollbackError.value != TxDone {
        err := Some(Wrapped("; rollback", err.value));
      }
      return;
    }
    if tx.broken || faults.commit.CommitFails? {
      return Some(Wrapped("commit", Leaf(Driver)));
    }
    tx.db.tables := tx.Seen();
    if faults.commit.AckLost? {
      return Some(Wrapped("commit", Leaf(Driver)));
    }
  }

  /** What a callback can do next, given the replies to its statements so far. */
  datatype Action = Write(statement: Statement) | Read(wallet: WalletId) | Return(error: Option<Error>) | Panic

  datatype Reply = Written | Row(balance: Int64) | Errored(error: Error)

  type Callback = seq<Reply> -> Action

  datatype Exit = Returned(error: Option<Error>) | Panicked

  predicate Ends(a: Action) { a.Return? || a.Panic? }

  /** The writes of a callback that the database accepted, in order. */
  function Accepted(fn: Callback, replies: seq<Reply>): seq<Statement> {
    if replies == [] then []
    else
      var earlier := replies[..|replies| - 1];
      var rest := Accepted(fn, earlier);
      if fn(earlier).Write? && replies[|replies| - 1].Written? then rest + [fn(earlier).statement] else rest
  }

  /** What a statement is answered on a usable connection, given the tables the transaction sees. */
  function ReplyTo(seen: Tables, a: Action): Reply
    requires !Ends(a)
  {
    match a
    case Write(st) =>
      if Refusal(seen, st).None? then Written else Errored(Leaf(Service(Store(Refusal(seen, st).value))))
    case Read(w) =>
      if w in seen.wallets then Row(seen.wallets[w]) else Errored(Leaf(Service(NotFound)))
  }

  /** After this reply the transaction can only be rolled back. */
  predicate Aborting(r: Reply) {
    && r.Errored?
    && (r.error == Leaf(Driver) || exists e: SqlError :: r.error == Leaf(Service(Store(e))) && !e.NoRow?)
  }

  predicate Broken(replies: seq<Reply>) {
    exists i | 0 <= i < |replies| :: Aborting(replies[i])
  }

  /** The replies a callback gets on a connection that survives `fuse` statements: each answers the tables as left by
      the writes accepted before it, until the connection is lost or a statement fails; then all are errors. */
  predicate Honest(db: Tables, fn: Callback, fuse: nat, replies: seq<Reply>) {
    replies == [] ||
    var earlier, last := replies[..|replies| - 1], replies[|replies| - 1];
    && Honest(db, fn, fuse, earlier)
    && !Ends(fn(earlier))
    && ExecAll(db, Accepted(fn, earlier)).Ok?
    && last == if Broken(earlier) || |earlier| >= fuse then Errored(Leaf(Driver))
               else ReplyTo(ExecAll(db, Accepted(fn, earlier)).value, fn(earlier))
  }

  lemma AcceptedAppend(fn: Callback, replies: seq<Reply>, r: Reply)
    ensures Accepted(fn, replies + [r]) ==
      if fn(replies).Write? && r.Written?
      then Accepted(fn, replies) + [fn(replies).statement]
      else Accepted(fn, replies)
  {
    assert (replies + [r])[..|replies + [r]| - 1] == replies;
  }

  lemma NothingBroken()
    ensures !Broken([])
  {
  }

  lemma AbortingReplies(r: Reply)
    ensures !r.Errored? ==> !Aborting(r)
    ensures r == Errored(Leaf(Driver)) ==> Aborting(r)
    ensures r == Errored(Leaf(Service(NotFound))) ==> !Aborting(r)
    ensures forall e: SqlError :: r == Errored(Leaf(Service(Store(e)))) ==> (Aborting(r) <==> !e.NoRow?)
  {
  }

  lemma BrokenAppend(replies: seq<Reply>, r: Reply)
    ensures Broken(replies + [r]) <==> Broken(replies) || Aborting(r)
  {
    var all := replies + [r];
    assert all[|replies|] == r;
    assert forall i | 0 <= i < |replies| :: all[i] == replies[i];
  }

  /** For every callback, however it adapts to what it reads, and for every statement at which it fails, returns
      an error or panics: it hears the truth; if it returns nil, no statement had failed and the COMMIT goes through,
      the committed tables are its accepted writes applied in order, otherwise they are untouched; nil is returned
      exactly when it returned nil and the COMMIT was acknowledged; an error keeps its identity through the rollback. */
  method RunInTx(db: Database, fn: Callback, ghost bound: nat, faults: Faults)
    returns (exit: Exit, ghost replies: seq<Reply>)
    requires forall h: seq<Reply> :: |h| >= bound ==> Ends(fn(h))
    modifies db
    ensures faults.beginFails ==>
      && db.tables == old(db.tables)
      && exit.Returned? && exit.error.Some? && Is(exit.error.value, Driver)
    ensures !faults.beginFails ==> Ends(fn(replies)) && Honest(old(db.tables), fn, faults.fuse, replies)
    ensures !faults.beginFails && fn(replies).Panic? ==> exit == Panicked && db.tables == old(db.tables)
    ensures !faults.beginFails && fn(replies).Return? && fn(replies).error.Some? ==>
      && db.tables == old(db.tables)
      && exit == Returned(Some(AfterRollback(fn(replies).error.value, faults)))
      && Cause(exit.error.value) == Cause(fn(replies).error.value)
    ensures !faults.beginFails && fn(replies) == Return(None) ==>
      && exit.Returned?
      && (exit.error.None? <==> !Broken(replies) && faults.commit.Commits?)
      && (exit.error.Some? ==> Is(exit.error.value, Driver))
      && ExecAll(old(db.tables), Accepted(fn, replies)).Ok?
      && db.tables == if !Broken(replies) && !faults.commit.CommitFails?
                      then ExecAll(old(db.tables), Accepted(fn, replies)).value
                      else old(db.tables)
  {
    hide View, Exec, Refusal, Broken, Aborting;
    replies := [];
    if faults.beginFails {
      return Returned(Some(Wrapped("begin tx", Leaf(Driver)))), replies;
    }
    var tx := new Tx(db, faults.fuse);
    NothingWrittenNothingSeen(db.tables);
    var heard: seq<Reply> := [];
    NothingBroken();
    while !Ends(fn(heard))
      invariant db.tables == old(db.tables) && tx.db == db && fresh(tx)
      invariant ExecAll(old(db.tables), Accepted(fn, heard)) == Ok(tx.Seen())
      invariant Honest(old(db.tables), fn, faults.fuse, heard)
      invariant tx.broken <==> Broken(heard)
      invariant !tx.broken ==> tx.fuse == faults.fuse - |heard|
      decreases bound - |heard|
    {
      var reply: Reply;
      match fn(heard) {
        case Write(st) =>
          var err := tx.Send(st);
          if err.None? {
            reply := Written;
            ExecAllAppend(old(db.tables), Accepted(fn, heard), st);
          } else {
            reply := Errored(err.value);
          }
        case Read(w) =>
          var r := tx.ReadBalance(w);
          reply := if r.Ok? then Row(r.value) else Errored(r.error);
      }
      AcceptedAppend(fn, heard, reply);
      BrokenAppend(heard, reply);
      AbortingReplies(reply);
      assert (heard + [reply])[..|heard + [reply]| - 1] == heard;
      heard := heard + [reply];
    }
    replies := heard;
    if fn(heard).Panic? {
      return Panicked, replies;
    }
    var err := Close(tx, fn(heard).error, faults);
    return Returned(err), replies;
  }

  // ----- repositories -----

  method InsertIdempotency(tx: Tx, key: Key, rec: IdempotencyRecord) returns (err: Option<Error>)
    modifies tx`ws, tx`fuse, tx`broken
    ensures err.None? ==> old(tx.Alive()) && !tx.broken && tx.fuse == old(tx.fuse) - 1
    ensures err.None? ==>
      && Refusal(old(tx.Seen()), InsertKey(key, rec)).None?
      && tx.Seen() == Exec(old(tx.Seen()), InsertKey(key, rec))
    ensures !old(tx.Alive()) ==> err.Some? && Is(err.value, Driver)
    ensures old(tx.Alive()) && err.Some? ==> Is(err.value, IdempotencyExists) == (key in old(tx.Seen()).idem)
    ensures old(tx.Alive()) && err.Some? ==> Refusal(old(tx.Seen()), InsertKey(key, rec)).Some?
    ensures err.Some? && Is(err.value, Driver) ==> !old(tx.Alive())
  {
    err := tx.Send(InsertKey(key, rec));
    if err.Some? {
      if Is(err.value, Service(Store(UniqueViolation))) {
        return Some(Leaf(IdempotencyExists));
      }
      return Some(Wrapped("insert idempotency", err.value));
    }
  }

  // ----- executeTransfer -----

  /** What executeTransfer reports on tables it sees without faults. */
  function Expected(db: Tables, req: Request, hash: string, id: TransferId, at: Time): Result<Transfer, ErrorCode> {
    if req.from !in db.wallets || req.to !in db.wallets then Err(Service(NotFound))
    else if id in db.transfers then Err(Service(Store(UniqueViolation)))
    else if req.key in db.idem then Err(IdempotencyExists)
    else
      match TransferOnce(db, req, hash, id, at).answer
      case Moved(t) => Ok(t)
      case _ => Err(Service(Store(CheckViolation)))
  }

  /** The tables after each accepted statement of executeTransfer. */
  function Claimed(db: Tables, req: Request, hash: string, id: TransferId, at: Time): Tables {
    Record(db, req, hash, NewTransfer(req, id, at, Pending))
  }

  lemma FailedPath(db: Tables, req: Request, hash: string, id: TransferId, at: Time)
    requires WellFormed(req) && req.key !in db.idem && id !in db.transfers
    requires req.from in db.wallets && req.to in db.wallets && db.wallets[req.from] < req.amount
    ensures var claimed, st := Claimed(db, req, hash, id, at), SetState(id, Failed, InsufficientFunds);
      && Refusal(claimed, st).None?
      && TransferOnce(db, req, hash, id, at) == Outcome(Exec(claimed, st), Moved(NewTransfer(req, id, at, Failed)))
  {
  }

  lemma DebitPath(db: Tables, req: Request, hash: string, id: TransferId, at: Time)
    requires SchemaOk(db) && WellFormed(req) && req.key !in db.idem && id !in db.transfers
    requires req.from in db.wallets && req.to in db.wallets && db.wallets[req.from] >= req.amount
    ensures var claimed := Claimed(db, req, hash, id, at);
      var debit := SetBalance(req.from, WrapSub(db.wallets[req.from], req.amount));
      var credit := SetBalance(req.to, WrapAdd(db.wallets[req.to], req.amount));
      && Refusal(claimed, debit).None?
      && (Refusal(Exec(claimed, debit), credit).Some? ==>
        && Refusal(Exec(claimed, debit), credit) == Some(CheckViolation)
        && TransferOnce(db, req, hash, id, at) == Outcome(db, Refused(Store(CheckViolation))))
      && (Refusal(Exec(claimed, debit), credit).None? ==>
        && db.wallets[req.to] + req.amount <= MAX_INT64
        && Exec(Exec(claimed, debit), credit) == claimed.(wallets :=
             db.wallets[req.from := db.wallets[req.from] - req.amount][req.to := db.wallets[req.to] + req.amount]))
  {
    assert db.wallets[req.from] >= 0 && db.wallets[req.to] >= 0;
    WrappedSumIsNegativeIffOverflow(db.wallets[req.to], req.amount);
  }

  lemma LedgerPath(db: Tables, paid: Tables, req: Request, hash: string, id: TransferId, at: Time)
    requires SchemaOk(db) && WellFormed(req) && req.key !in db.idem && id !in db.transfers
    requires req.from in db.wallets && req.to in db.wallets && db.wallets[req.from] >= req.amount
    requires db.wallets[req.to] + req.amount <= MAX_INT64
    requires paid == Claimed(db, req, hash, id, at).(wallets :=
      db.wallets[req.from := db.wallets[req.from] - req.amount][req.to := db.wallets[req.to] + req.amount])
    ensures var debit := InsertEntry(LedgerEntry(id, req.from, Debit, req.amount));
      var credit := InsertEntry(LedgerEntry(id, req.to, Credit, req.amount));
      var done := SetState(id, Processed, NoReason);
      && Refusal(paid, debit).None?
      && Refusal(Exec(paid, debit), credit).None?
      && Refusal(Exec(Exec(paid, debit), credit), done).None?
      && TransferOnce(db, req, hash, id, at) ==
           Outcome(Exec(Exec(Exec(paid, debit), credit), done), Moved(NewTransfer(req, id, at, Processed)))
  {
    NoEntriesYet(db, id);
    var d, c := LedgerEntry(id, req.from, Debit, req.amount), LedgerEntry(id, req.to, Credit, req.amount);
    assert db.ledger + [d] + [c] == db.ledger + [d, c];
  }

  /** Steps 1 and 2: lock both wallets in ascending order, then read both balances. */
  method LockAndRead(tx: Tx, req: Request) returns (r: Result<(Int64, Int64), Error>)
    requires !tx.broken
    modifies tx`fuse, tx`broken
    ensures r.Ok? ==>
      && !tx.broken && tx.fuse == old(tx.fuse) - 4
      && req.from in tx.Seen().wallets && req.to in tx.Seen().wallets
      && r.value == (tx.Seen().wallets[req.from], tx.Seen().wallets[req.to])
    ensures r.Err? ==>
      || (Is(r.error, Driver) && old(tx.fuse) < 4)
      || (Is(r.error, Service(NotFound)) && (req.from !in tx.Seen().wallets || req.to !in tx.Seen().wallets))
  {
    hide Validate, LexLess;
    var (firstID, secondID) := OrderedPair(req.from, req.to);
    var first := tx.ReadBalance(firstID);
    if first.Err? {
      return Err(first.error);
    }
    var second := tx.ReadBalance(secondID);
    if second.Err? {
      return Err(second.error);
    }
    var src := tx.ReadBalance(req.from);
    if src.Err? {
      return Err(src.error);
    }
    var dst := tx.ReadBalance(req.to);
    if dst.Err? {
      return Err(dst.error);
    }
    return Ok((src.value, dst.value));
  }

  /** Step 6: two absolute balance writes, the ledger pair, the terminal state. */
  method MoveMoney(tx: Tx, ghost db: Tables, req: Request, ghost hash: string, t: Transfer, src: Int64, dst: Int64)
    returns (r: Result<Transfer, Error>)
    requires !tx.broken && SchemaOk(db) && WellFormed(req) && req.key !in db.idem && t.id !in db.transfers
    requires req.from in db.wallets && src == db.wallets[req.from] && req.to in db.wallets && dst == db.wallets[req.to]
    requires src >= req.amount && t == NewTransfer(req, t.id, t.createdAt, Pending)
    requires tx.Seen() == Claimed(db, req, hash, t.id, t.createdAt)
    modifies tx
    ensures r.Ok? ==> !tx.broken && TransferOnce(db, req, hash, t.id, t.createdAt) == Outcome(tx.Seen(), Moved(r.value))
    ensures r.Err? ==>
      || (Is(r.error, Driver) && old(tx.fuse) < 5)
      || (Is(r.error, Service(Store(CheckViolation)))
          && TransferOnce(db, req, hash, t.id, t.createdAt).answer == Refused(Store(CheckViolation)))
  {
    DebitPath(db, req, hash, t.id, t.createdAt);
    hide TransferOnce, Exec, Refusal, Claimed, SchemaOk, Validate;
    var err := tx.Send(SetBalance(req.from, WrapSub(src, req.amount)));
    if err.Some? {
      return Err(Wrapped("update wallet balance", err.value));
    }
    err := tx.Send(SetBalance(req.to, WrapAdd(dst, req.amount)));
    if err.Some? {
      return Err(Wrapped("update wallet balance", err.value));
    }
    LedgerPath(db, tx.Seen(), req, hash, t.id, t.createdAt);
    err := tx.Send(InsertEntry(LedgerEntry(t.id, req.from, Debit, req.amount)));
    if err.Some? {
      return Err(Wrapped("insert ledger entry", err.value));
    }
    err := tx.Send(InsertEntry(LedgerEntry(t.id, req.to, Credit, req.amount)));
    if err.Some? {
      return Err(Wrapped("insert ledger entry", err.value));
    }
    err := tx.Send(SetState(t.id, Processed, NoReason));
    if err.Some? {
      return Err(Wrapped("update transfer state", err.value));
    }
    return Ok(t.(state := Processed));
  }

  /** Steps 3 and 4: insert the PENDING row, claim the key. */
  method Claim(tx: Tx, ghost db: Tables, req: Request, hash: string, t: Transfer) returns (err: Option<Error>)
    requires !tx.broken && WellFormed(req) && req.from in db.wallets && req.to in db.wallets
    requires tx.Seen() == db && t == NewTransfer(req, t.id, t.createdAt, Pending)
    modifies tx
    ensures err.None? ==>
      && !tx.broken && tx.fuse == old(tx.fuse) - 2 && t.id !in db.transfers && req.key !in db.idem
      && tx.Seen() == Claimed(db, req, hash, t.id, t.createdAt)
    ensures err.Some? ==>
      || (Is(err.value, Driver) && old(tx.fuse) < 2)
      || (Is(err.value, Service(Store(UniqueViolation))) && t.id in db.transfers)
      || (Is(err.value, IdempotencyExists) && t.id !in db.transfers && req.key in db.idem)
  {
    err := tx.Send(InsertTransfer(t));
    if err.Some? {
      return Some(Wrapped("insert transfer", err.value));
    }
    err := InsertIdempotency(tx, req.key, IdempotencyRecord(hash, t.id));
  }

  /** executeTransfer, one statement after the other. On success the transaction sees exactly the tables of the
      atomic transfer; otherwise the error is the expected one, or the connection was lost. */
  method ExecuteTransfer(tx: Tx, req: Request, hash: string, id: TransferId, at: Time)
    returns (r: Result<Transfer, Error>)
    requires tx.ws == NO_WRITES && !tx.broken && WellFormed(req) && SchemaOk(tx.db.tables)
    modifies tx
    ensures r.Ok? ==>
      && !tx.broken && req.key !in tx.db.tables.idem
      && TransferOnce(tx.db.tables, req, hash, id, at) == Outcome(tx.Seen(), Moved(r.value))
    ensures r.Ok? ==> Expected(tx.db.tables, req, hash, id, at) == Ok(r.value)
    ensures r.Err? ==> Is(r.error, Driver) || Expected(tx.db.tables, req, hash, id, at) == Err(Cause(r.error))
    ensures old(tx.fuse) >= 11 && r.Err? ==> !Is(r.error, Driver)
  {
    hide TransferOnce, Exec, Refusal, Claimed, SchemaOk, Validate;
    ghost var db := tx.db.tables;
    NothingWrittenNothingSeen(db);
    var balances := LockAndRead(tx, req);
    if balances.Err? {
      return Err(balances.error);
    }
    var (src, dst) := balances.value;
    var t := NewTransfer(req, id, at, Pending);
    var err := Claim(tx, db, req, hash, t);
    if err.Some? {
      return Err(err.value);
    }
    // Insufficient funds commits a FAILED transfer.
    if src < req.amount {
      FailedPath(db, req, hash, id, at);
      err := tx.Send(SetState(t.id, Failed, InsufficientFunds));
      if err.Some? {
        return Err(Wrapped("update transfer state", err.value));
      }
      return Ok(t.(state := Failed, reason := InsufficientFunds));
    }
    r := MoveMoney(tx, db, req, hash, t, src, dst);
  }

  // ----- replay, Create -----

  /** (nil, nil) means: nothing recorded, go on. */
  method ReplayIfExists(db: Database, key: Key, hash: string, connected: bool)
    returns (r: Result<Option<Transfer>, Error>)
    requires SchemaOk(db.tables)
    ensures !connected ==> r.Err? && Is(r.error, Driver)
    ensures connected ==> (r == Ok(None) <==> key !in db.tables.idem)
    ensures connected && key in db.tables.idem ==>
      if db.tables.idem[key].hash != hash then r == Err(Leaf(Service(IdempotencyConflict)))
      else
        && db.tables.idem[key].transferId in db.tables.transfers
        && r == Ok(Some(db.tables.transfers[db.tables.idem[key].transferId]))
  {
    if !connected {
      return Err(Wrapped("scan idempotency", Leaf(Driver)));
    }
    if key !in db.tables.idem {
      return Ok(None);
    }
    var rec := db.tables.idem[key];
    if rec.hash != hash {
      return Err(Leaf(Service(IdempotencyConflict)));
    }
    if rec.transferId !in db.tables.transfers {
      return Err(Leaf(Service(NotFound)));
    }
    return Ok(Some(db.tables.transfers[rec.transferId]));
  }

  /** The result Go reports for an answer of the atomic operation. */
  predicate Reports(answer: Answer, r: Result<Transfer, Error>) {
    match answer
    case Moved(t) => r == Ok(t)
    case Refused(e) => r.Err? && Is(r.error, Service(e))
    case _ => false
  }

  /** Create on an otherwise idle database. Without faults it is the atomic transfer, in tables and answer. With
      faults it is that or nothing; a success is never reported without having happened; and if it happened but
      was not reported, only the commit's acknowledgement was lost. */
  method CreateTransfer(db: Database, req: Request, id: TransferId, at: Time, connected: bool, faults: Faults)
    returns (r: Result<Transfer, Error>)
    requires SchemaOk(db.tables)
    modifies db
    ensures var o := TransferOnce(old(db.tables), req, HashText(req), id, at);
      && (db.tables == old(db.tables) || db.tables == o.db)
      && (r.Ok? ==> db.tables == o.db && o.answer == Moved(r.value))
      && (connected && Harmless(faults) ==> db.tables == o.db && Reports(o.answer, r))
      && (r.Err? && db.tables != old(db.tables) ==> faults.commit.AckLost? && Is(r.error, Driver))
    ensures req.key == "" || req.amount <= 0 || req.from == "" || req.to == "" || req.from == req.to ==>
      && db.tables == old(db.tables)
      && r.Err? && Cause(r.error).Service? && NamesFirstBrokenRule(Cause(r.error).error, req)
  {
    hide Apply;
    ValidateDecides(req);
    var invalid := Validate(req);
    if invalid.Some? {
      return Err(Leaf(Service(invalid.value)));
    }
    var hash := HashText(req);
    hide HashText;
    var replayed := ReplayIfExists(db, req.key, hash, connected);
    if replayed.Err? {
      return Err(replayed.error);
    }
    if replayed.value.Some? {
      return Ok(replayed.value.value);
    }
    if faults.beginFails {
      return Err(Wrapped("begin tx", Leaf(Driver)));
    }
    var tx := new Tx(db, faults.fuse);
    var result := ExecuteTransfer(tx, req, hash, id, at);
    var txErr := Close(tx, if result.Err? then Some(result.error) else None, faults);
    if txErr.Some? && Is(txErr.value, IdempotencyExists) {
      var raced := ReplayIfExists(db, req.key, hash, connected);
      match raced
      case Err(e) => return Err(e);
      case Ok(Some(t)) => return Ok(t);
      case Ok(None) => return Err(Leaf(Service(NotFound)));
    }
    if txErr.Some? {
      return Err(txErr.value);
    }
    return result;
  }

  /** WalletService.Create: one INSERT outside any transaction. */
  method CreateWallet(db: Database, wallet: WalletId, opening: Int64) returns (r: Result<Int64, Error>)
    modifies db
    ensures r == Ok(opening) <==> wallet != "" && opening >= 0 && wallet !in old(db.tables.wallets)
    ensures r.Ok? ==>
      && r.value == opening
      && db.tables == old(db.tables).(wallets := old(db.tables.wallets)[wallet := opening])
    ensures r.Err? ==>
      && db.tables == old(db.tables)
      && Is(r.error, Service(
           if wallet == "" then WalletNotFound else if opening < 0 then InvalidAmount else Store(UniqueViolation)))
    ensures db.tables == Seed(old(db.tables), wallet, opening).db
    ensures r.Ok? <==> Seed(old(db.tables), wallet, opening).answer == Seeded(opening)
    ensures r.Err? ==>
      var answer := Seed(old(db.tables), wallet, opening).answer;
      answer.Refused? && Is(r.error, Service(answer.error))
  {
    if wallet == "" {
      return Err(Leaf(Service(WalletNotFound)));
    }
    if opening < 0 {
      return Err(Leaf(Service(InvalidAmount)));
    }
    var st := InsertWallet(wallet, opening);
    var refusal := Refusal(db.tables, st);
    if refusal.Some? {
      return Err(Wrapped("insert wallet", Leaf(Service(Store(refusal.value)))));
    }
    db.tables := Exec(db.tables, st);
    return Ok(opening);
  }

  // ----- the audit query -----

  /** ListByTransfer: scan the ledger in insertion order. */
  method ListByTransfer(db: Tables, id: TransferId) returns (entries: seq<LedgerEntry>)
    ensures entries == EntriesOf(db.ledger, id)
  {
    entries := [];
    for i := 0 to |db.ledger|
      invariant entries == EntriesOf(db.ledger[..i], id)
    {
      EntriesOfAppend(db.ledger[..i], db.ledger[i], id);
      assert db.ledger[..i + 1] == db.ledger[..i] + [db.ledger[i]];
      if db.ledger[i].transferId == id {
        entries := entries + [db.ledger[i]];
      }
    }
    assert db.ledger[..|db.ledger|] == db.ledger;
  }

  /** It returns a DEBIT on the source followed by a CREDIT of the same amount on the destination if the transfer
      was PROCESSED, and nothing if it FAILED or does not exist. */
  lemma AuditShowsAllOrNothing(opening: map<WalletId, Int64>, db: Tables, id: TransferId)
    requires Consistent(opening, db)
    ensures EntriesOf(db.ledger, id) == if id in db.transfers then Entries(db.transfers[id]) else []
    ensures id in db.transfers && db.transfers[id].state.Processed? ==>
      var t := db.transfers[id];
      EntriesOf(db.ledger, id) == [LedgerEntry(id, t.from, Debit, t.amount), LedgerEntry(id, t.to, Credit, t.amount)]
  {
    if id in db.transfers {
      assert TransferRowOk(db, id, db.transfers[id]) && TransferSettled(db, db.transfers[id]);
    } else {
      NoEntriesYet(db, id);
      NoEntriesOfUnknown(db.ledger, id);
    }
  }
}
