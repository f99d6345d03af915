/** Entities of internal/domain and the request checks of internal/service/transfer.go. */
module Domain {
  import opened Base

  type WalletId = string
  type Key = string
  type TransferId = nat
  type Time = int

  // ----- transfer state machine -----

  datatype TransferState = Pending | Processed | Failed

  predicate CanTransitionTo(s: TransferState, next: TransferState) {
    s == Pending && (next == Processed || next == Failed)
  }

  /** PENDING leads to both other states; they lead nowhere. */
  lemma OnlyPendingMovesOn(s: TransferState, next: TransferState)
    ensures s == Pending ==> (CanTransitionTo(s, next) <==> next != Pending)
    ensures s != Pending ==> !CanTransitionTo(s, next)
  {
  }

  /** The texts the service ever writes to failure_reason: none, or "insufficient funds". */
  datatype FailureReason = NoReason | InsufficientFunds

  datatype Transfer = Transfer(
    id: TransferId, from: WalletId, to: WalletId, amount: Int64,
    state: TransferState, reason: FailureReason, createdAt: Time)

  datatype EntryType = Debit | Credit

  datatype LedgerEntry = LedgerEntry(transferId: TransferId, walletId: WalletId, kind: EntryType, amount: Int64)

  // ----- errors -----

  /** SQLSTATE classes the schema can raise, and "no row" for an UPDATE that matched nothing. */
  datatype SqlError = CheckViolation | UniqueViolation | ForeignKeyViolation | NoRow

  datatype ServiceError =
    | InvalidIdempotencyKey
    | InvalidAmount
    | WalletIdRequired
    | SameWallet
    | WalletNotFound
    | IdempotencyConflict
    | NotFound
    | Store(sql: SqlError)

  // ----- requests -----

  datatype Request = Request(key: Key, from: WalletId, to: WalletId, amount: Int64)

  function Validate(r: Request): Option<ServiceError> {
    if r.key == "" then Some(InvalidIdempotencyKey)
    else if r.amount <= 0 then Some(InvalidAmount)
    else if r.from == "" || r.to == "" then Some(WalletIdRequired)
    else if r.from == r.to then Some(SameWallet)
    else None
  }

  /** What a request must be for Create to act on it. */
  predicate WellFormed(r: Request) {
    r.key != "" && r.amount > 0 && r.from != "" && r.to != "" && r.from != r.to
  }

  /** `e` is the error for the first of the rules that `r` breaks. */
  predicate NamesFirstBrokenRule(e: ServiceError, r: Request) {
    match e
    case InvalidIdempotencyKey => r.key == ""
    case InvalidAmount => r.key != "" && r.amount <= 0
    case WalletIdRequired => r.key != "" && r.amount > 0 && (r.from == "" || r.to == "")
    case SameWallet => r.key != "" && r.amount > 0 && r.from != "" && r.from == r.to
    case _ => false
  }

  lemma ValidateDecides(r: Request)
    ensures Validate(r).None? <==> WellFormed(r)
    ensures Validate(r).Some? ==> NamesFirstBrokenRule(Validate(r).value, r)
    ensures forall d, e :: NamesFirstBrokenRule(d, r) && NamesFirstBrokenRule(e, r) ==> d == e && !WellFormed(r)
  {
  }

  function OrderedPair(a: WalletId, b: WalletId): (p: (WalletId, WalletId)) {
    if LexLess(a, b) then (a, b) else (b, a)
  }

  /** Both directions of the same pair of wallets are locked in the same order, and that order ascends. */
  lemma OrderedPairIsSymmetricAndAscending(a: WalletId, b: WalletId)
    ensures OrderedPair(a, b) == OrderedPair(b, a)
    ensures a != b ==> LexLess(OrderedPair(a, b).0, OrderedPair(a, b).1)
    ensures {OrderedPair(a, b).0, OrderedPair(a, b).1} == {a, b}
  {
    LexTotal(a, b);
    if LexLess(a, b) && LexLess(b, a) {
      LexTransitive(a, b, a);
      LexIrreflexive(a);
    }
  }
}
