/** A wallet's history: the ordered, limited, cursor-filtered query, the page the service makes of it, and the
    client that follows the cursor. */
module History {
  import opened Base
  import opened Domain
  import opened Schema
  import opened Spec

  // ----- the order of rows -----

  /** ORDER BY created_at DESC, id DESC. */
  predicate Before(a: Transfer, b: Transfer) {
    a.createdAt > b.createdAt || (a.createdAt == b.createdAt && a.id > b.id)
  }

  ghost predicate Sorted(rows: seq<Transfer>) {
    forall i, j | 0 <= i < j < |rows| :: Before(rows[i], rows[j])
  }

  ghost predicate IdsDistinct(rows: set<Transfer>) {
    forall a, b | a in rows && b in rows && a.id == b.id :: a == b
  }

  predicate IsNewest(t: Transfer, rows: set<Transfer>) {
    t in rows && forall u | u in rows :: u == t || Before(t, u)
  }

  lemma {:induction false} NewestExists(rows: set<Transfer>)
    requires rows != {} && IdsDistinct(rows)
    ensures exists t :: IsNewest(t, rows)
    decreases |rows|
  {
    var t :| t in rows;
    var rest := rows - {t};
    if rest == {} {
      assert rows == {t};
      assert IsNewest(t, rows);
    } else {
      NewestExists(rest);
      var u :| IsNewest(u, rest);
      assert t.id != u.id;
      assert forall v | v in rows && v != t :: v in rest;
      if Before(t, u) {
        assert forall v | v in rest :: v == u || Before(u, v);
        assert IsNewest(t, rows);
      } else {
        assert IsNewest(u, rows);
      }
    }
  }

  /** All rows, newest first. */
  ghost function Desc(rows: set<Transfer>): seq<Transfer>
    requires IdsDistinct(rows)
    decreases |rows|
  {
    if rows == {} then []
    else
      NewestExists(rows);
      var t :| IsNewest(t, rows);
      [t] + Desc(rows - {t})
  }

  lemma {:induction false} DescIsSorted(rows: set<Transfer>)
    requires IdsDistinct(rows)
    ensures Sorted(Desc(rows))
    ensures forall t :: t in Desc(rows) <==> t in rows
    decreases |rows|
  {
    if rows != {} {
      NewestExists(rows);
      var t :| IsNewest(t, rows);
      DescStartsWithNewest(rows, t);
      DescIsSorted(rows - {t});
      assert forall u | u in Desc(rows - {t}) :: Before(t, u);
    }
  }

  /** Rows in a given order can be written down in only one way. */
  lemma {:induction false} SortedIsUnique(a: seq<Transfer>, b: seq<Transfer>)
    requires Sorted(a) && Sorted(b) && forall t :: t in a <==> t in b
    ensures a == b
  {
    if a != [] {
      assert a[0] in b;
    }
    if b != [] {
      assert b[0] in a;
    }
    if a != [] {
      assert a[0] == b[0];
      forall t ensures t in a[1..] <==> t in b[1..] {
        if t in a[1..] {
          assert Before(a[0], t) && t in a;
        }
        if t in b[1..] {
          assert Before(b[0], t) && t in b;
        }
      }
      SortedIsUnique(a[1..], b[1..]);
    }
  }

  // ----- the query -----

  /** WHERE from_wallet_id = w OR to_wallet_id = w. */
  function WalletRows(transfers: map<TransferId, Transfer>, w: WalletId): set<Transfer> {
    set id | id in transfers && (transfers[id].from == w || transfers[id].to == w) :: transfers[id]
  }

  /** AND (before IS NULL OR created_at < before). */
  function Matching(rows: set<Transfer>, before: Option<Time>): set<Transfer> {
    set t | t in rows && (before.None? || t.createdAt < before.value)
  }

  function Take(rows: seq<Transfer>, n: nat): seq<Transfer> {
    if |rows| <= n then rows else rows[..n]
  }

  ghost function Query(rows: set<Transfer>, before: Option<Time>, limit: nat): seq<Transfer>
    requires IdsDistinct(rows)
  {
    Take(Desc(Matching(rows, before)), limit)
  }

  ghost predicate RowIds(transfers: map<TransferId, Transfer>) {
    forall id | id in transfers :: transfers[id].id == id
  }

  /** `t` is a stored transfer from or to `w`, older than the cursor. */
  predicate Selected(transfers: map<TransferId, Transfer>, w: WalletId, before: Option<Time>, t: Transfer) {
    && t.id in transfers && transfers[t.id] == t
    && (t.from == w || t.to == w)
    && (before == None || t.createdAt < before.value)
  }

  /** `out` holds the first `limit` of the selected transfers, PROCESSED or FAILED, newest first. */
  ghost predicate IsSlice(transfers: map<TransferId, Transfer>, w: WalletId, before: Option<Time>, limit: nat,
                          out: seq<Transfer>) {
    && |out| <= limit
    && (forall t | t in out :: Selected(transfers, w, before, t))
    && (forall i, j | 0 <= i < j < |out| ::
          out[i].createdAt > out[j].createdAt || (out[i].createdAt == out[j].createdAt && out[i].id > out[j].id))
    && (forall t | Selected(transfers, w, before, t) && t !in out :: |out| == limit && SortsAfterAll(out, t))
  }

  ghost predicate SortsAfterAll(out: seq<Transfer>, t: Transfer) {
    forall u | u in out :: u.createdAt > t.createdAt || (u.createdAt == t.createdAt && u.id > t.id)
  }

  lemma SelectedMatches(transfers: map<TransferId, Transfer>, w: WalletId, before: Option<Time>, t: Transfer)
    requires RowIds(transfers)
    ensures Selected(transfers, w, before, t) <==> t in Matching(WalletRows(transfers, w), before)
  {
  }

  /** Cutting a sorted list keeps what sorts first. */
  lemma TakeKeepsFirst(all: seq<Transfer>, limit: nat)
    requires Sorted(all)
    ensures var out := Take(all, limit);
      && |out| <= limit && Sorted(out) && (forall t | t in out :: t in all)
      && (forall t | t in all && t !in out :: |out| == limit && SortsAfterAll(out, t))
  {
    var out := Take(all, limit);
    forall j | 0 <= j < |all| ensures all[j] in out || (|out| == limit && SortsAfterAll(out, all[j])) {
      if j < |out| {
        assert out[j] == all[j];
      } else {
        assert forall i | 0 <= i < |out| :: out[i] == all[i] && Before(all[i], all[j]);
      }
    }
  }

  lemma QueryIsSlice(transfers: map<TransferId, Transfer>, w: WalletId, before: Option<Time>, limit: nat)
    requires RowIds(transfers)
    ensures IdsDistinct(WalletRows(transfers, w))
    ensures IsSlice(transfers, w, before, limit, Query(WalletRows(transfers, w), before, limit))
  {
    hide WalletRows, Matching, Desc, RowIds, Selected, Take, SortsAfterAll;
    RowIdsAreDistinct(transfers, w);
    MatchingIdsDistinct(WalletRows(transfers, w), before);
    var all := Desc(Matching(WalletRows(transfers, w), before));
    DescIsSorted(Matching(WalletRows(transfers, w), before));
    TakeKeepsFirst(all, limit);
    forall t ensures Selected(transfers, w, before, t) <==> t in all {
      SelectedMatches(transfers, w, before, t);
    }
  }

  lemma MatchingIdsDistinct(rows: set<Transfer>, before: Option<Time>)
    requires IdsDistinct(rows)
    ensures IdsDistinct(Matching(rows, before))
  {
  }

  lemma RowIdsAreDistinct(transfers: map<TransferId, Transfer>, w: WalletId)
    requires RowIds(transfers)
    ensures IdsDistinct(WalletRows(transfers, w))
  {
  }

  /** The repository method: fetch row after row in query order, append each. */
  method ListByWallet(transfers: map<TransferId, Transfer>, w: WalletId, limit: nat, before: Option<Time>)
    returns (out: seq<Transfer>)
    requires RowIds(transfers)
    ensures IdsDistinct(WalletRows(transfers, w))
    ensures out == Query(WalletRows(transfers, w), before, limit)
    ensures IsSlice(transfers, w, before, limit, out)
  {
    hide IsSlice, WalletRows, RowIds, Sorted;
    QueryIsSlice(transfers, w, before, limit);
    out := [];
    var rest := Matching(WalletRows(transfers, w), before);
    ghost var all := rest;
    while |out| < limit && rest != {}
      invariant rest <= all && |out| <= limit
      invariant out + Desc(rest) == Desc(all)
      decreases |rest|
    {
      NewestExists(rest);
      var t :| IsNewest(t, rest);
      DescStartsWithNewest(rest, t);
      out := out + [t];
      rest := rest - {t};
    }
  }

  lemma DescStartsWithNewest(rows: set<Transfer>, t: Transfer)
    requires IdsDistinct(rows) && IsNewest(t, rows)
    ensures Desc(rows) == [t] + Desc(rows - {t})
  {
  }

  // ----- the service -----

  const DEFAULT_TRANSFER_LIST_LIMIT: nat := 50
  const MAX_TRANSFER_LIST_LIMIT: nat := 200

  datatype Page = Page(rows: seq<Transfer>, next: Option<Time>)

  ghost predicate IsPage(p: Page, rows: set<Transfer>, before: Option<Time>, n: nat)
    requires IdsDistinct(rows)
  {
    && p.rows == Query(rows, before, n)
    && |p.rows| <= n
    && (p.next.Some? <==> |p.rows| == n)
    && (p.next.Some? && n > 0 ==> p.next.value == p.rows[n - 1].createdAt)
  }

  /** The number of rows asked of the database for a requested limit. */
  function Clamped(limit: int): (n: nat)
    ensures 1 <= n <= 200
    ensures 1 <= limit <= 200 ==> n == limit
    ensures limit <= 0 ==> n == 50
    ensures limit > 200 ==> n == 200
  {
    if limit <= 0 then DEFAULT_TRANSFER_LIST_LIMIT
    else if limit > MAX_TRANSFER_LIST_LIMIT then MAX_TRANSFER_LIST_LIMIT
    else limit
  }

  method ListTransfersByWallet(transfers: map<TransferId, Transfer>, w: WalletId, requested: int, before: Option<Time>)
    returns (r: Result<Page, ServiceError>)
    requires RowIds(transfers)
    ensures w == "" ==> r == Err(WalletNotFound)
    ensures IdsDistinct(WalletRows(transfers, w))
    ensures w != "" ==> r.Ok? && IsPage(r.value, WalletRows(transfers, w), before, Clamped(requested))
    ensures w != "" ==> IsSlice(transfers, w, before, Clamped(requested), r.value.rows)
  {
    RowIdsAreDistinct(transfers, w);
    hide WalletRows, IsSlice;
    if w == "" {
      return Err(WalletNotFound);
    }
    var limit := requested;
    if limit <= 0 {
      limit := DEFAULT_TRANSFER_LIST_LIMIT;
    }
    if limit > MAX_TRANSFER_LIST_LIMIT {
      limit := MAX_TRANSFER_LIST_LIMIT;
    }
    var rows := ListByWallet(transfers, w, limit, before);
    var next: Option<Time> := None;
    if |rows| == limit {
      next := Some(rows[|rows| - 1].createdAt);
    }
    return Ok(Page(rows, next));
  }

  // ----- following the cursor through unchanging rows -----

  /** The part of a sorted list that is strictly older than `t`. */
  function Older(rows: seq<Transfer>, t: Time): seq<Transfer> {
    if rows == [] then [] else if rows[0].createdAt < t then rows else Older(rows[1..], t)
  }

  lemma {:induction false} OlderIsFilter(rows: seq<Transfer>, t: Time)
    requires Sorted(rows)
    ensures Sorted(Older(rows, t)) && |Older(rows, t)| <= |rows|
    ensures forall r :: r in Older(rows, t) <==> r in rows && r.createdAt < t
  {
    if rows != [] {
      OlderIsFilter(rows[1..], t);
      assert rows == [rows[0]] + rows[1..];
      assert forall r | r in rows[1..] :: Before(rows[0], r);
    }
  }

  lemma {:induction false} OlderDrops(rows: seq<Transfer>, n: nat)
    requires Sorted(rows) && 0 < n <= |rows|
    ensures |Older(rows, rows[n - 1].createdAt)| <= |rows| - n
  {
    var t := rows[n - 1].createdAt;
    assert rows[0].createdAt >= t by { assert n == 1 || Before(rows[0], rows[n - 1]); }
    if n == 1 {
      OlderIsFilter(rows[1..], t);
    } else {
      OlderDrops(rows[1..], n - 1);
    }
  }

  lemma OlderMatches(rows: set<Transfer>, before: Option<Time>, t: Time)
    requires IdsDistinct(rows) && (before.Some? ==> t <= before.value)
    ensures Desc(Matching(rows, Some(t))) == Older(Desc(Matching(rows, before)), t)
  {
    DescIsSorted(Matching(rows, Some(t)));
    DescIsSorted(Matching(rows, before));
    OlderIsFilter(Desc(Matching(rows, before)), t);
    SortedIsUnique(Desc(Matching(rows, Some(t))), Older(Desc(Matching(rows, before)), t));
  }

  /** Everything a client sees that pages through `rows` by n until a page is not full. */
  ghost function Walk(rows: seq<Transfer>, n: nat): seq<Transfer>
    requires n > 0 && Sorted(rows)
    decreases |rows|
  {
    if |rows| < n then rows
    else
      OlderDrops(rows, n);
      OlderIsFilter(rows, rows[n - 1].createdAt);
      rows[..n] + Walk(Older(rows, rows[n - 1].createdAt), n)
  }

  /** The last row of every full page. */
  ghost function PageEnds(rows: seq<Transfer>, n: nat): seq<Transfer>
    requires n > 0 && Sorted(rows)
    decreases |rows|
  {
    if |rows| < n then []
    else
      OlderDrops(rows, n);
      OlderIsFilter(rows, rows[n - 1].createdAt);
      [rows[n - 1]] + PageEnds(Older(rows, rows[n - 1].createdAt), n)
  }

  /** One page of a walk, and what is left for the others. */
  lemma PageAdvancesWalk(rows: set<Transfer>, before: Option<Time>, n: nat, p: Page)
    requires n > 0 && IdsDistinct(rows) && IsPage(p, rows, before, n)
    ensures Sorted(Desc(Matching(rows, before))) && Sorted(Desc(Matching(rows, p.next)))
    ensures Walk(Desc(Matching(rows, before)), n) ==
      p.rows + if p.next.Some? then Walk(Desc(Matching(rows, p.next)), n) else []
    ensures p.next.Some? ==> |Desc(Matching(rows, p.next))| < |Desc(Matching(rows, before))|
  {
    var left := Desc(Matching(rows, before));
    DescIsSorted(Matching(rows, before));
    DescIsSorted(Matching(rows, p.next));
    if p.next.Some? {
      assert p.rows == left[..n];
      OlderDrops(left, n);
      assert left[n - 1] in left;
      OlderMatches(rows, before, left[n - 1].createdAt);
    }
  }

  lemma NoCursorMatchesAll(rows: set<Transfer>)
    ensures Matching(rows, None) == rows
  {
  }

  /** The client: pass `next` back as `before` until there is none. */
  method WalkPages(transfers: map<TransferId, Transfer>, w: WalletId, requested: int) returns (seen: seq<Transfer>)
    requires RowIds(transfers) && w != ""
    ensures IdsDistinct(WalletRows(transfers, w)) && Sorted(Desc(WalletRows(transfers, w)))
    ensures seen == Walk(Desc(WalletRows(transfers, w)), Clamped(requested))
    ensures forall t | t in seen :: Selected(transfers, w, None, t)
  {
    hide WalletRows, RowIds, IsPage, IsSlice, Selected, Walk, Sorted, Desc;
    WalkShowsOwnRows(transfers, w, Clamped(requested));
    ghost var rows, n := WalletRows(transfers, w), Clamped(requested);
    RowIdsAreDistinct(transfers, w);
    DescIsSorted(rows);
    NoCursorMatchesAll(rows);
    seen := [];
    var before: Option<Time>, more := None, true;
    while more
      invariant Sorted(Desc(Matching(rows, before)))
      invariant seen + (if more then Walk(Desc(Matching(rows, before)), n) else []) == Walk(Desc(rows), n)
      decreases if more then |Desc(Matching(rows, before))| + 1 else 0
    {
      var p := ListTransfersByWallet(transfers, w, requested, before);
      PageAdvancesWalk(rows, before, n, p.value);
      seen := seen + p.value.rows;
      before, more := p.value.next, p.value.next.Some?;
    }
  }

  /** A walk shows nothing but the wallet's own transfers. */
  lemma WalkShowsOwnRows(transfers: map<TransferId, Transfer>, w: WalletId, n: nat)
    requires RowIds(transfers) && n > 0
    ensures IdsDistinct(WalletRows(transfers, w)) && Sorted(Desc(WalletRows(transfers, w)))
    ensures forall t | t in Walk(Desc(WalletRows(transfers, w)), n) :: Selected(transfers, w, None, t)
  {
    RowIdsAreDistinct(transfers, w);
    var rows := WalletRows(transfers, w);
    DescIsSorted(rows);
    WalkIsSorted(Desc(rows), n);
    NoCursorMatchesAll(rows);
    hide WalletRows, Desc, Walk, Selected, RowIds;
    forall t | t in Walk(Desc(rows), n) ensures Selected(transfers, w, None, t) {
      SelectedMatches(transfers, w, None, t);
    }
  }

  ghost predicate Skipped(rows: seq<Transfer>, n: nat, r: Transfer)
    requires n > 0 && Sorted(rows)
  {
    exists e :: e in PageEnds(rows, n) && e.createdAt == r.createdAt && Before(e, r)
  }

  lemma {:induction false} PageEndsAreRows(rows: seq<Transfer>, n: nat)
    requires n > 0 && Sorted(rows)
    ensures forall e | e in PageEnds(rows, n) :: e in rows
    decreases |rows|
  {
    if |rows| >= n {
      OlderDrops(rows, n);
      OlderIsFilter(rows, rows[n - 1].createdAt);
      PageEndsAreRows(Older(rows, rows[n - 1].createdAt), n);
    }
  }

  /** A walk never repeats a row, keeps the order, and returns only rows that exist. */
  lemma {:induction false} WalkIsSorted(rows: seq<Transfer>, n: nat)
    requires n > 0 && Sorted(rows)
    ensures Sorted(Walk(rows, n)) && forall r | r in Walk(rows, n) :: r in rows
    decreases |rows|
  {
    if |rows| >= n {
      var t := rows[n - 1].createdAt;
      OlderDrops(rows, n);
      OlderIsFilter(rows, t);
      WalkIsSorted(Older(rows, t), n);
      assert forall i | 0 <= i < n :: rows[..n][i].createdAt >= t by {
        assert forall i | 0 <= i < n - 1 :: Before(rows[i], rows[n - 1]);
      }
      var rest := Walk(Older(rows, t), n);
      assert forall j | 0 <= j < |rest| :: rest[j] in rest;
    }
  }

  /** Exact gap of the timestamp cursor: a walk omits exactly the rows that share their timestamp with the last
      row of a full page and sort after it. */
  lemma {:induction false} WalkOmitsExactlySkipped(rows: seq<Transfer>, n: nat, r: Transfer)
    requires n > 0 && Sorted(rows) && r in rows
    ensures r in Walk(rows, n) <==> !Skipped(rows, n, r)
    decreases |rows|
  {
    if |rows| >= n {
      var e := rows[n - 1];
      var t := e.createdAt;
      var older := Older(rows, t);
      OlderDrops(rows, n);
      OlderIsFilter(rows, t);
      WalkIsSorted(older, n);
      PageEndsAreRows(older, n);
      assert PageEnds(rows, n) == [e] + PageEnds(older, n);
      if r.createdAt < t {
        WalkOmitsExactlySkipped(older, n, r);
        assert r !in rows[..n] by { OnPage(rows, n, r); }
        assert Skipped(rows, n, r) <==> Skipped(older, n, r);
      } else {
        OnPage(rows, n, r);
        assert r !in Walk(older, n);
        assert Skipped(rows, n, r) <==> r.createdAt == t && Before(e, r);
      }
    }
  }

  lemma OnPage(rows: seq<Transfer>, n: nat, r: Transfer)
    requires 0 < n <= |rows| && Sorted(rows) && r in rows
    ensures r in rows[..n] <==> r == rows[n - 1] || Before(r, rows[n - 1])
    ensures r in rows[..n] <==> !Before(rows[n - 1], r)
  {
    var i :| 0 <= i < |rows| && rows[i] == r;
    if i < n {
      assert rows[..n][i] == r;
    }
    if r in rows[..n] {
      var j :| 0 <= j < n && rows[..n][j] == r;
      assert rows[j] == r;
    }
  }

  /** Unless a page ends inside a group of equal timestamps, its cursor selects exactly the rows after it. */
  lemma OlderIsRest(rows: seq<Transfer>, n: nat)
    requires Sorted(rows) && 0 < n <= |rows|
    requires n < |rows| ==> rows[n - 1].createdAt != rows[n].createdAt
    ensures Older(rows, rows[n - 1].createdAt) == rows[n..]
  {
    var t := rows[n - 1].createdAt;
    OlderIsFilter(rows, t);
    forall r ensures r in Older(rows, t) <==> r in rows[n..] {
      if r in rows {
        var i :| 0 <= i < |rows| && rows[i] == r;
        if i < n - 1 {
          assert Before(rows[i], rows[n - 1]);
        } else if i > n {
          assert Before(rows[n - 1], rows[n]) && Before(rows[n], rows[i]);
        } else if i == n {
          assert Before(rows[n - 1], rows[n]);
        }
        assert i >= n <==> r.createdAt < t;
        assert i >= n ==> rows[n..][i - n] == r;
      }
      if r in rows[n..] {
        var j :| 0 <= j < |rows| - n && rows[n..][j] == r;
        assert rows[n + j] == r;
        assert Before(rows[n - 1], rows[n]);
        assert j > 0 ==> Before(rows[n], rows[n + j]);
      }
    }
    SortedIsUnique(Older(rows, t), rows[n..]);
  }

  /** The last of the first `k` times `n` rows has the timestamp of the row after it. */
  ghost predicate TieAcrossPages(rows: seq<Transfer>, n: nat, k: nat) {
    0 < k * n < |rows| && rows[k * n - 1].createdAt == rows[k * n].createdAt
  }

  lemma TiesShift(rows: seq<Transfer>, n: nat, k: nat)
    requires 0 < n < |rows|
    ensures TieAcrossPages(rows[n..], n, k) ==> TieAcrossPages(rows, n, k + 1)
    ensures TieAcrossPages(rows, n, k + 1) ==> k == 0 || TieAcrossPages(rows[n..], n, k)
  {
    assert (k + 1) * n == k * n + n;
    assert k > 0 ==> k * n > 0;
  }

  /** So a walk is complete if and only if no two rows with one timestamp are separated by a multiple of the page
      size: the history and the limit alone decide. */
  lemma {:induction false} WalkCompleteIff(rows: seq<Transfer>, n: nat)
    requires n > 0 && Sorted(rows)
    ensures Walk(rows, n) == rows <==> forall k: nat :: !TieAcrossPages(rows, n, k)
    decreases |rows|
  {
    hide TieAcrossPages;
    if |rows| <= n {
      ShortWalk(rows, n);
    } else if rows[n - 1].createdAt == rows[n].createdAt {
      TieAtPage(rows, n);
      assert Before(rows[n - 1], rows[n]) && rows[n] in rows;
      assert rows[n - 1] in PageEnds(rows, n) && Skipped(rows, n, rows[n]);
      WalkOmitsExactlySkipped(rows, n, rows[n]);
    } else {
      OlderIsRest(rows, n);
      WalkCompleteIff(rows[n..], n);
      TiesOfRest(rows, n);
      assert Walk(rows, n) == rows[..n] + Walk(rows[n..], n);
      assert rows == rows[..n] + rows[n..];
      assert Walk(rows, n)[n..] == Walk(rows[n..], n);
    }
  }

  lemma TiesOfRest(rows: seq<Transfer>, n: nat)
    requires 0 < n < |rows| && rows[n - 1].createdAt != rows[n].createdAt
    ensures (forall k: nat :: !TieAcrossPages(rows, n, k)) <==> (forall k: nat :: !TieAcrossPages(rows[n..], n, k))
  {
    forall k: nat | TieAcrossPages(rows[n..], n, k) ensures TieAcrossPages(rows, n, k + 1) {
      TiesShift(rows, n, k);
    }
    forall k: nat | TieAcrossPages(rows, n, k) ensures k > 0 && TieAcrossPages(rows[n..], n, k - 1) {
      assert k > 0 by { assert 0 * n == 0; }
      TiesShift(rows, n, k - 1);
      assert k == 1 ==> k * n == n;
    }
  }

  lemma ShortWalk(rows: seq<Transfer>, n: nat)
    requires 0 < n && |rows| <= n && Sorted(rows)
    ensures Walk(rows, n) == rows && forall k: nat :: !TieAcrossPages(rows, n, k)
  {
    if |rows| == n {
      OlderIsRest(rows, n);
    }
    forall k: nat ensures k * n == 0 || k * n >= n {
      assert k > 0 ==> (k - 1) * n >= 0 && k * n == (k - 1) * n + n;
    }
  }

  lemma TieAtPage(rows: seq<Transfer>, n: nat)
    requires 0 < n < |rows| && rows[n - 1].createdAt == rows[n].createdAt
    ensures TieAcrossPages(rows, n, 1)
  {
    assert 1 * n == n;
  }

  ghost predicate DistinctTimes(rows: set<Transfer>) {
    forall a, b | a in rows && b in rows && a.createdAt == b.createdAt :: a == b
  }

  lemma DistinctTimesMakeWalksComplete(rows: set<Transfer>, n: nat)
    requires n > 0 && IdsDistinct(rows) && DistinctTimes(rows)
    ensures Sorted(Desc(rows)) && Walk(Desc(rows), n) == Desc(rows)
  {
    hide Desc;
    DescIsSorted(rows);
    WalkCompleteIff(Desc(rows), n);
    assert forall i | 0 < i < |Desc(rows)| :: Before(Desc(rows)[i - 1], Desc(rows)[i]);
    assert forall i | 0 <= i < |Desc(rows)| :: Desc(rows)[i] in Desc(rows);
  }

  /** With distinct timestamps, for every requested limit, the pages put together are the whole history, newest
      first, each row once. */
  lemma DistinctTimesMakeWalkComplete(rows: set<Transfer>, requested: int)
    requires IdsDistinct(rows) && DistinctTimes(rows)
    ensures Sorted(Desc(rows)) && Walk(Desc(rows), Clamped(requested)) == Desc(rows)
  {
    DistinctTimesMakeWalksComplete(rows, Clamped(requested));
  }

  /** Ties can lose rows: two transfers in the same instant, pages of one. */
  lemma TiesCanBeLost()
    ensures var a := Transfer(2, "a", "b", 1, Processed, NoReason, 7);
      var b := Transfer(1, "a", "b", 1, Processed, NoReason, 7);
      Sorted([a, b]) && Walk([a, b], 1) == [a]
  {
    var a, b := Transfer(2, "a", "b", 1, Processed, NoReason, 7), Transfer(1, "a", "b", 1, Processed, NoReason, 7);
    assert [a, b][1..] == [b] && [b][1..] == [];
    assert Older([b], 7) == Older([], 7);
    assert Older([a, b], 7) == Older([b], 7);
    assert Walk([a, b], 1) == [a, b][..1] + Walk([], 1);
  }

  // ----- the cursor the comment promises -----

  /** Rows after row `e` in the order: what a (created_at, id) cursor would select. */
  function AfterRow(rows: seq<Transfer>, e: Transfer): seq<Transfer> {
    if rows == [] then [] else if Before(e, rows[0]) then rows else AfterRow(rows[1..], e)
  }

  lemma {:induction false} AfterRowDropsPage(rows: seq<Transfer>, n: nat)
    requires 0 < n <= |rows| && Sorted(rows)
    ensures AfterRow(rows, rows[n - 1]) == rows[n..]
  {
    if n == 1 {
      assert rows[1..] == [] || rows[1..][0] == rows[1];
    } else {
      AfterRowDropsPage(rows[1..], n - 1);
      assert rows[1..][n - 1..] == rows[n..];
    }
  }

  ghost function WalkByRow(rows: seq<Transfer>, n: nat): seq<Transfer>
    requires n > 0 && Sorted(rows)
    decreases |rows|
  {
    if |rows| < n then rows
    else
      AfterRowDropsPage(rows, n);
      rows[..n] + WalkByRow(AfterRow(rows, rows[n - 1]), n)
  }

  /** A (created_at, id) cursor would omit nothing, ties or not. */
  lemma {:induction false} RowCursorOmitsNothing(rows: seq<Transfer>, n: nat)
    requires n > 0 && Sorted(rows)
    ensures WalkByRow(rows, n) == rows
    decreases |rows|
  {
    if |rows| >= n {
      AfterRowDropsPage(rows, n);
      RowCursorOmitsNothing(rows[n..], n);
      assert rows == rows[..n] + rows[n..];
    }
  }

  // ----- following the cursor while transfers commit -----

  /** `snaps[i]` is the set of the wallet's committed rows when page i is read. */
  ghost predicate Growing(snaps: seq<set<Transfer>>) {
    && snaps != []
    && (forall i | 0 <= i < |snaps| :: IdsDistinct(snaps[i]))
    && (forall i | 0 <= i < |snaps| - 1 :: snaps[i] <= snaps[i + 1])
  }

  /** The page read from the first snapshot. */
  ghost function PageNow(snaps: seq<set<Transfer>>, before: Option<Time>, n: nat): seq<Transfer>
    requires Growing(snaps)
  {
    Query(snaps[0], before, n)
  }

  /** The walk ends: a page that is not full is read before the snapshots run out. */
  ghost predicate Completes(snaps: seq<set<Transfer>>, before: Option<Time>, n: nat)
    requires n > 0 && Growing(snaps)
  {
    var page := PageNow(snaps, before, n);
    |page| == n ==> |snaps| > 1 && Completes(snaps[1..], Some(page[n - 1].createdAt), n)
  }

  ghost function WalkLive(snaps: seq<set<Transfer>>, before: Option<Time>, n: nat): seq<Transfer>
    requires n > 0 && Growing(snaps)
  {
    var page := PageNow(snaps, before, n);
    if |page| < n || |snaps| == 1 then page
    else page + WalkLive(snaps[1..], Some(page[n - 1].createdAt), n)
  }

  /** Row `r` lies below the cursor of some page at the moment that page is read. */
  ghost predicate InReach(snaps: seq<set<Transfer>>, before: Option<Time>, n: nat, r: Transfer)
    requires n > 0 && Growing(snaps)
  {
    var page := PageNow(snaps, before, n);
    || r in Matching(snaps[0], before)
    || (|page| == n && |snaps| > 1 && InReach(snaps[1..], Some(page[n - 1].createdAt), n, r))
  }

  lemma LivePage(snaps: seq<set<Transfer>>, before: Option<Time>, n: nat)
    requires n > 0 && Growing(snaps)
    ensures var page := PageNow(snaps, before, n);
      && |page| <= n && Sorted(page)
      && (forall r | r in page :: r in Matching(snaps[0], before))
      && (|page| < n ==> forall r | r in Matching(snaps[0], before) :: r in page)
      && (|page| == n ==> forall r | r in Matching(snaps[0], before) :: r in page || Before(page[n - 1], r))
  {
    var all := Desc(Matching(snaps[0], before));
    DescIsSorted(Matching(snaps[0], before));
    var page := PageNow(snaps, before, n);
    if |page| == n {
      assert page == all[..n];
      forall r | r in Matching(snaps[0], before) ensures r in page || Before(page[n - 1], r) {
        OnPage(all, n, r);
      }
    }
  }

  /** Whatever commits between pages, a walk returns no row twice and stays in order. */
  lemma {:induction false} LiveWalkIsSorted(snaps: seq<set<Transfer>>, before: Option<Time>, n: nat)
    requires n > 0 && Growing(snaps)
    ensures Sorted(WalkLive(snaps, before, n))
    ensures before.Some? ==> forall r | r in WalkLive(snaps, before, n) :: r.createdAt < before.value
    decreases |snaps|
  {
    hide Desc, Query;
    LivePage(snaps, before, n);
    var page := PageNow(snaps, before, n);
    if |page| == n && |snaps| > 1 {
      var t := page[n - 1].createdAt;
      var rest := WalkLive(snaps[1..], Some(t), n);
      LiveWalkIsSorted(snaps[1..], Some(t), n);
      assert page[n - 1] in page;
      assert forall i | 0 <= i < n :: page[i].createdAt >= t by {
        assert forall i | 0 <= i < n - 1 :: Before(page[i], page[n - 1]);
      }
      assert forall j | 0 <= j < |rest| :: rest[j] in rest && rest[j].createdAt < t;
    }
  }

  /** Exactly which rows a completed walk returns under concurrent commits, when timestamps are distinct: those
      that some page could still reach when it was read. */
  lemma {:induction false} LiveWalkReturnsExactlyReachable(snaps: seq<set<Transfer>>, before: Option<Time>, n: nat,
                                                           r: Transfer)
    requires n > 0 && Growing(snaps) && Completes(snaps, before, n)
    requires forall i | 0 <= i < |snaps| :: DistinctTimes(snaps[i])
    ensures r in WalkLive(snaps, before, n) <==> InReach(snaps, before, n, r)
    decreases |snaps|
  {
    LivePage(snaps, before, n);
    var page := PageNow(snaps, before, n);
    if |page| == n {
      var last := page[n - 1];
      assert last in page && last in snaps[0];
      LiveWalkReturnsExactlyReachable(snaps[1..], Some(last.createdAt), n, r);
      if r in Matching(snaps[0], before) && r !in page {
        assert Before(last, r) && r.createdAt != last.createdAt;
        assert snaps[0] <= snaps[1] && r in Matching(snaps[1], Some(last.createdAt));
      }
    }
  }

  /** In particular nothing that existed when the walk began is missed. */
  lemma LiveWalkMissesNothingOld(snaps: seq<set<Transfer>>, n: nat)
    requires n > 0 && Growing(snaps) && Completes(snaps, None, n)
    requires forall i | 0 <= i < |snaps| :: DistinctTimes(snaps[i])
    ensures forall r | r in snaps[0] :: r in WalkLive(snaps, None, n)
  {
    forall r | r in snaps[0] ensures r in WalkLive(snaps, None, n) {
      LiveWalkReturnsExactlyReachable(snaps, None, n, r);
    }
  }

  /** Every later snapshot adds only rows at or above the cursor its page is read with. */
  ghost predicate OnlyNewer(snaps: seq<set<Transfer>>, before: Option<Time>, n: nat)
    requires n > 0 && Growing(snaps)
  {
    var page := PageNow(snaps, before, n);
    |page| == n && |snaps| > 1 ==>
      && Matching(snaps[1], Some(page[n - 1].createdAt)) == Matching(snaps[0], Some(page[n - 1].createdAt))
      && OnlyNewer(snaps[1..], Some(page[n - 1].createdAt), n)
  }

  /** The client sees the consistent slice of the moment it began, as long as nothing commits behind its cursor. */
  lemma {:induction false} LiveWalkIsConsistentSlice(snaps: seq<set<Transfer>>, before: Option<Time>, n: nat)
    requires n > 0 && Growing(snaps) && Completes(snaps, before, n) && OnlyNewer(snaps, before, n)
    ensures Sorted(Desc(Matching(snaps[0], before)))
    ensures WalkLive(snaps, before, n) == Walk(Desc(Matching(snaps[0], before)), n)
    decreases |snaps|
  {
    var all := Desc(Matching(snaps[0], before));
    DescIsSorted(Matching(snaps[0], before));
    LivePage(snaps, before, n);
    var page := PageNow(snaps, before, n);
    if |page| == n {
      var t := page[n - 1].createdAt;
      assert page == all[..n] && page[n - 1] in page;
      OlderMatches(snaps[0], before, t);
      LiveWalkIsConsistentSlice(snaps[1..], Some(t), n);
    }
  }

  lemma {:induction false} SliceMeansOnlyNewer(snaps: seq<set<Transfer>>, before: Option<Time>, n: nat)
    requires n > 0 && Growing(snaps) && Completes(snaps, before, n)
    requires forall i | 0 <= i < |snaps| :: DistinctTimes(snaps[i])
    requires Sorted(Desc(Matching(snaps[0], before)))
    requires WalkLive(snaps, before, n) == Walk(Desc(Matching(snaps[0], before)), n)
    ensures OnlyNewer(snaps, before, n)
    decreases |snaps|
  {
    hide DistinctTimes;
    var all := Desc(Matching(snaps[0], before));
    LivePage(snaps, before, n);
    var page := PageNow(snaps, before, n);
    if |page| == n {
      var t := page[n - 1].createdAt;
      var rest, older := WalkLive(snaps[1..], Some(t), n), Matching(snaps[0], Some(t));
      assert page == all[..n] && page[n - 1] in page;
      OlderMatches(snaps[0], before, t);
      DescIsSorted(older);
      assert (page + rest)[n..] == rest && (page + Walk(Desc(older), n))[n..] == Walk(Desc(older), n);
      WalkIsSorted(Desc(older), n);
      assert snaps[0] <= snaps[1];
      forall r | r in Matching(snaps[1], Some(t)) ensures r in older {
        LiveWalkReturnsExactlyReachable(snaps[1..], Some(t), n, r);
      }
      assert Matching(snaps[1], Some(t)) == older;
      SliceMeansOnlyNewer(snaps[1..], Some(t), n);
    }
  }

  /** When page `j` (counting from 0) is read, row `r` is new since the walk began and older than the last of the
      first `j` times `n` rows of the history at that moment. */
  ghost predicate CommittedBehind(snaps: seq<set<Transfer>>, rows: seq<Transfer>, n: nat, j: nat, r: Transfer) {
    && 1 <= j < |snaps| && 0 < j * n <= |rows|
    && r in snaps[j] && r !in rows && r.createdAt < rows[j * n - 1].createdAt
  }

  ghost predicate NothingBehind(snaps: seq<set<Transfer>>, rows: seq<Transfer>, n: nat) {
    forall j: nat, r :: !CommittedBehind(snaps, rows, n, j, r)
  }

  lemma BehindShift(snaps: seq<set<Transfer>>, rows: seq<Transfer>, n: nat, j: nat, r: Transfer)
    requires 0 < n <= |rows| && |snaps| > 1 && Sorted(rows)
    requires n < |rows| ==> rows[n - 1].createdAt != rows[n].createdAt
    ensures CommittedBehind(snaps[1..], rows[n..], n, j, r) ==> CommittedBehind(snaps, rows, n, j + 1, r)
    ensures CommittedBehind(snaps, rows, n, j + 1, r) ==> j == 0 || CommittedBehind(snaps[1..], rows[n..], n, j, r)
  {
    assert (j + 1) * n == j * n + n;
    assert j > 0 ==> j * n > 0;
    if r in rows[n..] {
      var i :| 0 <= i < |rows| - n && rows[n..][i] == r;
      assert rows[n + i] == r;
    }
    OlderIsRest(rows, n);
    OlderIsFilter(rows, rows[n - 1].createdAt);
    if 0 < j * n <= |rows| - n {
      assert Before(rows[n - 1], rows[n + (j * n - 1)]);
    }
  }

  lemma BehindOfRest(snaps: seq<set<Transfer>>, rows: seq<Transfer>, n: nat)
    requires 0 < n <= |rows| && |snaps| > 1 && Sorted(rows)
    requires n < |rows| ==> rows[n - 1].createdAt != rows[n].createdAt
    ensures NothingBehind(snaps, rows, n) <==>
      NothingBehind(snaps[1..], rows[n..], n) && forall r :: !CommittedBehind(snaps, rows, n, 1, r)
  {
    hide CommittedBehind;
    forall j: nat, r | CommittedBehind(snaps[1..], rows[n..], n, j, r)
      ensures CommittedBehind(snaps, rows, n, j + 1, r)
    {
      BehindShift(snaps, rows, n, j, r);
    }
    forall j: nat, r | CommittedBehind(snaps, rows, n, j, r) && j != 1
      ensures j > 0 && CommittedBehind(snaps[1..], rows[n..], n, j - 1, r)
    {
      assert j > 0 by { NoPageBeforeTheFirst(snaps, rows, n, r); }
      BehindShift(snaps, rows, n, j - 1, r);
    }
  }

  lemma NoPageBeforeTheFirst(snaps: seq<set<Transfer>>, rows: seq<Transfer>, n: nat, r: Transfer)
    ensures !CommittedBehind(snaps, rows, n, 0, r)
  {
  }

  /** With distinct timestamps a full page cuts the rows it is read from cleanly. */
  lemma FullPageCuts(rows: set<Transfer>, before: Option<Time>, n: nat)
    requires IdsDistinct(rows) && DistinctTimes(Matching(rows, before)) && 0 < n <= |Desc(Matching(rows, before))|
    ensures var all := Desc(Matching(rows, before)); var t := all[n - 1].createdAt;
      && Sorted(all) && Query(rows, before, n) == all[..n]
      && (n < |all| ==> t != all[n].createdAt)
      && Desc(Matching(rows, Some(t))) == all[n..]
      && DistinctTimes(Matching(rows, Some(t)))
  {
    var all := Desc(Matching(rows, before));
    hide Desc;
    DescIsSorted(Matching(rows, before));
    assert all[n - 1] in all && (n < |all| ==> all[n] in all && Before(all[n - 1], all[n]));
    OlderMatches(rows, before, all[n - 1].createdAt);
    OlderIsRest(all, n);
  }

  /** The page-by-page condition speaks of the first snapshot's history alone. */
  lemma {:induction false} OnlyNewerIff(snaps: seq<set<Transfer>>, before: Option<Time>, n: nat)
    requires n > 0 && Growing(snaps) && DistinctTimes(Matching(snaps[0], before))
    ensures OnlyNewer(snaps, before, n) <==> NothingBehind(snaps, Desc(Matching(snaps[0], before)), n)
    decreases |snaps|
  {
    hide CommittedBehind, NothingBehind, Desc, Sorted, DistinctTimes;
    var rows := Desc(Matching(snaps[0], before));
    if |rows| < n || |snaps| == 1 {
      NoMorePages(snaps, rows, n);
    } else {
      var t := rows[n - 1].createdAt;
      FullPageCuts(snaps[0], before, n);
      BehindOfRest(snaps, rows, n);
      BehindFirstPage(snaps, before, n, rows);
      if Matching(snaps[1], Some(t)) == Matching(snaps[0], Some(t)) {
        OnlyNewerIff(snaps[1..], Some(t), n);
      }
    }
  }

  lemma NoMorePages(snaps: seq<set<Transfer>>, rows: seq<Transfer>, n: nat)
    requires n > 0 && (|rows| < n || |snaps| == 1)
    ensures NothingBehind(snaps, rows, n)
  {
    forall j: nat | j >= 1 ensures j * n >= n {
      assert (j - 1) * n >= 0 && j * n == (j - 1) * n + n;
    }
  }

  lemma BehindFirstPage(snaps: seq<set<Transfer>>, before: Option<Time>, n: nat, rows: seq<Transfer>)
    requires Growing(snaps) && |snaps| > 1 && rows == Desc(Matching(snaps[0], before)) && 0 < n <= |rows|
    ensures (forall r :: !CommittedBehind(snaps, rows, n, 1, r)) <==>
      Matching(snaps[1], Some(rows[n - 1].createdAt)) == Matching(snaps[0], Some(rows[n - 1].createdAt))
  {
    hide Desc;
    var t := rows[n - 1].createdAt;
    DescIsSorted(Matching(snaps[0], before));
    assert rows[n - 1] in rows;
    assert 1 * n == n && snaps[0] <= snaps[1];
    forall r ensures CommittedBehind(snaps, rows, n, 1, r) <==>
      r in Matching(snaps[1], Some(t)) && r !in Matching(snaps[0], Some(t))
    {
    }
  }

  /** With distinct timestamps, a completed walk shows exactly the history of the moment it began if and only if no
      page was read after a transfer had been committed below the rows already shown. */
  lemma LiveWalkIsSliceIff(snaps: seq<set<Transfer>>, n: nat)
    requires n > 0 && Growing(snaps) && Completes(snaps, None, n)
    requires forall i | 0 <= i < |snaps| :: DistinctTimes(snaps[i])
    ensures WalkLive(snaps, None, n) == Desc(snaps[0]) <==> NothingBehind(snaps, Desc(snaps[0]), n)
  {
    hide NothingBehind, TieAcrossPages;
    NoCursorMatchesAll(snaps[0]);
    DescIsSorted(snaps[0]);
    DistinctTimesMakeWalksComplete(snaps[0], n);
    OnlyNewerIff(snaps, None, n);
    if OnlyNewer(snaps, None, n) {
      LiveWalkIsConsistentSlice(snaps, None, n);
    }
    if WalkLive(snaps, None, n) == Desc(snaps[0]) {
      SliceMeansOnlyNewer(snaps, None, n);
    }
  }

  lemma DescOfOne(r: Transfer)
    ensures Desc({r}) == [r]
  {
    assert IsNewest(r, {r});
    DescStartsWithNewest({r}, r);
    assert {r} - {r} == {};
  }

  /** A transfer committed below the cursor after the page that showed a newer one is shown, although it did not exist
      when the walk began. */
  lemma LateCommitShowsUp(newer: Transfer, older: Transfer)
    requires newer.id != older.id && older.createdAt < newer.createdAt
    ensures var snaps := [{newer}, {newer, older}, {newer, older}];
      && Growing(snaps) && Completes(snaps, None, 1)
      && WalkLive(snaps, None, 1) == [newer, older] && Desc(snaps[0]) == [newer]
  {
    var both := {newer, older};
    var snaps := [{newer}, both, both];
    assert Growing(snaps) && Growing(snaps[1..]) && Growing(snaps[2..]);
    assert snaps[1..][1..] == snaps[2..];
    hide Desc, Growing;
    assert Matching({newer}, None) == {newer};
    assert Matching(both, Some(newer.createdAt)) == {older};
    assert Matching(both, Some(older.createdAt)) == {};
    DescOfOne(newer);
    DescOfOne(older);
    DescIsSorted({});
    assert PageNow(snaps, None, 1) == [newer];
    assert PageNow(snaps[1..], Some(newer.createdAt), 1) == [older];
    assert PageNow(snaps[2..], Some(older.createdAt), 1) == [];
    assert Completes(snaps[2..], Some(older.createdAt), 1);
    assert Completes(snaps[1..], Some(newer.createdAt), 1);
    assert WalkLive(snaps[1..], Some(newer.createdAt), 1) == [older] + WalkLive(snaps[2..], Some(older.createdAt), 1);
  }

  // ----- history and balance -----

  function SumRows(rows: seq<Transfer>, w: WalletId): int {
    if rows == [] then 0 else SignedRow(rows[0], w) + SumRows(rows[1..], w)
  }

  lemma WalletRowsWithout(transfers: map<TransferId, Transfer>, w: WalletId, t: Transfer)
    requires RowIds(transfers) && t in WalletRows(transfers, w)
    ensures WalletRows(transfers - {t.id}, w) == WalletRows(transfers, w) - {t}
  {
    var fewer := transfers - {t.id};
    forall r ensures r in WalletRows(fewer, w) <==> r in WalletRows(transfers, w) - {t} {
      if r in WalletRows(transfers, w) - {t} {
        assert r.id in fewer && fewer[r.id] == r;
      }
    }
  }

  lemma NoRowsNoNet(transfers: map<TransferId, Transfer>, w: WalletId)
    requires WalletRows(transfers, w) == {}
    ensures RowsNet(transfers, w) == 0
  {
    assert forall id | id in transfers :: transfers[id] !in WalletRows(transfers, w);
    SumOfZeros(SignedRows(transfers, w));
  }

  lemma NetWithout(transfers: map<TransferId, Transfer>, w: WalletId, t: Transfer)
    requires RowIds(transfers) && t in WalletRows(transfers, w)
    ensures RowsNet(transfers, w) == SignedRow(t, w) + RowsNet(transfers - {t.id}, w)
    ensures |transfers - {t.id}| < |transfers|
  {
    SumWithout(SignedRows(transfers, w), t.id);
    assert SignedRows(transfers, w) - {t.id} == SignedRows(transfers - {t.id}, w);
    assert (transfers - {t.id}).Keys == transfers.Keys - {t.id};
  }

  lemma {:induction false} RowsAddUp(transfers: map<TransferId, Transfer>, w: WalletId)
    requires RowIds(transfers)
    ensures IdsDistinct(WalletRows(transfers, w))
    ensures SumRows(Desc(WalletRows(transfers, w)), w) == RowsNet(transfers, w)
    decreases |transfers|
  {
    hide WalletRows, SignedRow, RowsNet;
    var rows := WalletRows(transfers, w);
    RowIdsAreDistinct(transfers, w);
    if rows == {} {
      NoRowsNoNet(transfers, w);
    } else {
      NewestExists(rows);
      var t :| IsNewest(t, rows);
      WalletRowsWithout(transfers, w, t);
      NetWithout(transfers, w, t);
      RowsAddUp(transfers - {t.id}, w);
      DescStartsWithNewest(rows, t);
    }
  }

  /** Draining a wallet's pages and adding up its PROCESSED rows gives its balance minus its opening balance. */
  lemma HistoryExplainsBalance(opening: map<WalletId, Int64>, db: Tables, w: WalletId, requested: int)
    requires Consistent(opening, db) && w in db.wallets
    requires DistinctTimes(WalletRows(db.transfers, w))
    ensures IdsDistinct(WalletRows(db.transfers, w)) && Sorted(Desc(WalletRows(db.transfers, w)))
    ensures SumRows(Walk(Desc(WalletRows(db.transfers, w)), Clamped(requested)), w)
      == db.wallets[w] as int - opening[w] as int
  {
    assert RowIds(db.transfers) by {
      assert forall id | id in db.transfers :: TransferRowOk(db, id, db.transfers[id]);
    }
    assert BalanceExplained(opening, db, w);
    RowsAddUp(db.transfers, w);
    DistinctTimesMakeWalkComplete(WalletRows(db.transfers, w), requested);
  }
}
