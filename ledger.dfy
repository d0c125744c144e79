/** The `purchases` table: an append-only ledger of signed share counts, and
    the aggregate queries the handlers run over it.  Holdings are never
    stored; they are sums over the ledger. */
module Ledger {

  import opened Wrappers

  /** `users.id`. */
  type UserId = nat

  /** One row of `purchases`: a buy has positive `shares`, a sell negative;
      `price` is the unit price in cents at the time of the trade. */
  datatype Row = Row(user: UserId, symbol: string, shares: int, price: nat)

  /** One line of the portfolio: a symbol and the user's net share count. */
  datatype Position = Position(symbol: string, shares: int)

  /** The part of one row that counts towards `SUM(shares)` for `user` and `symbol`. */
  function Contribution(row: Row, user: UserId, symbol: string): int
  {
    if row.user == user && row.symbol == symbol then row.shares else 0
  }

  /** `SUM(shares)` over the user's rows for one symbol, as a number (0 for no rows). */
  function Holding(ledger: seq<Row>, user: UserId, symbol: string): int
    decreases |ledger|
  {
    if ledger == [] then 0
    else Holding(ledger[..|ledger| - 1], user, symbol) + Contribution(ledger[|ledger| - 1], user, symbol)
  }

  /** The symbols the user has rows for: the groups of `GROUP BY symbol`. */
  function Symbols(ledger: seq<Row>, user: UserId): set<string>
  {
    set i | 0 <= i < |ledger| && ledger[i].user == user :: ledger[i].symbol
  }

  /** What the single-symbol `SELECT SUM(shares)` of the sell handler returns:
      SQL's `SUM` over no rows is NULL, which Python sees as `None`. */
  function AvailableShares(ledger: seq<Row>, user: UserId, symbol: string): (r: Option<int>)
    ensures r.None? <==> symbol !in Symbols(ledger, user)
    ensures r.Some? ==> r.value == Holding(ledger, user, symbol)
    ensures r.None? ==> Holding(ledger, user, symbol) == 0
  {
    if symbol in Symbols(ledger, user) then Some(Holding(ledger, user, symbol))
    else HoldingWithoutRows(ledger, user, symbol); None
  }

  /** The grouped query of the portfolio and sell pages: each symbol whose
      summed shares are strictly positive, with that sum. */
  function Portfolio(ledger: seq<Row>, user: UserId): map<string, int>
  {
    map s | s in Symbols(ledger, user) && Holding(ledger, user, s) > 0 :: Holding(ledger, user, s)
  }

  /** `SELECT ... FROM purchases WHERE user_id = ?` of the history page: the user's rows, in order. */
  function History(ledger: seq<Row>, user: UserId): (h: seq<Row>)
    ensures forall r :: r in h <==> r in ledger && r.user == user
  {
    if ledger == [] then []
    else
      var last := ledger[|ledger| - 1];
      History(ledger[..|ledger| - 1], user) + (if last.user == user then [last] else [])
  }

  /** The net amount (cents) the user has paid over all their trades:
      buys count `price * shares`, sells (negative shares) subtract it. */
  function Spent(ledger: seq<Row>, user: UserId): int
    decreases |ledger|
  {
    if ledger == [] then 0
    else
      var last := ledger[|ledger| - 1];
      Spent(ledger[..|ledger| - 1], user) + (if last.user == user then last.price * last.shares else 0)
  }

  // ---------------------------------------------------------------------
  // Appending one row

  lemma HoldingAppend(ledger: seq<Row>, row: Row, user: UserId, symbol: string)
    ensures Holding(ledger + [row], user, symbol) == Holding(ledger, user, symbol) + Contribution(row, user, symbol)
  {
    assert (ledger + [row])[..|ledger|] == ledger;
  }

  lemma SymbolsAppend(ledger: seq<Row>, row: Row, user: UserId)
    ensures Symbols(ledger + [row], user) == Symbols(ledger, user) + (if row.user == user then {row.symbol} else {})
  {
    var l := ledger + [row];
    forall s | s in Symbols(l, user)
      ensures s in Symbols(ledger, user) + (if row.user == user then {row.symbol} else {})
    {
      var i :| 0 <= i < |l| && l[i].user == user && l[i].symbol == s;
      if i < |ledger| {
        assert ledger[i] == l[i];
      }
    }
    forall s | s in Symbols(ledger, user)
      ensures s in Symbols(l, user)
    {
      var i :| 0 <= i < |ledger| && ledger[i].user == user && ledger[i].symbol == s;
      assert l[i] == ledger[i];
    }
    if row.user == user {
      assert l[|ledger|] == row;
    }
  }

  lemma SpentAppend(ledger: seq<Row>, row: Row, user: UserId)
    ensures Spent(ledger + [row], user) == Spent(ledger, user) + (if row.user == user then row.price * row.shares else 0)
  {
    assert (ledger + [row])[..|ledger|] == ledger;
  }

  lemma HistoryAppend(ledger: seq<Row>, row: Row, user: UserId)
    ensures History(ledger + [row], user) == History(ledger, user) + (if row.user == user then [row] else [])
  {
    assert (ledger + [row])[..|ledger|] == ledger;
  }

  // ---------------------------------------------------------------------
  // Properties of the aggregates

  /** A symbol the user has no rows for sums to zero. */
  lemma {:induction false} HoldingWithoutRows(ledger: seq<Row>, user: UserId, symbol: string)
    requires symbol !in Symbols(ledger, user)
    ensures Holding(ledger, user, symbol) == 0
  {
    if ledger != [] {
      var init := ledger[..|ledger| - 1];
      assert ledger == init + [ledger[|ledger| - 1]];
      SymbolsAppend(init, ledger[|ledger| - 1], user);
      HoldingWithoutRows(init, user, symbol);
    }
  }

  /** A user with no rows at all has paid nothing. */
  lemma {:induction false} SpentWithoutRows(ledger: seq<Row>, user: UserId)
    requires forall i :: 0 <= i < |ledger| ==> ledger[i].user != user
    ensures Spent(ledger, user) == 0
  {
    if ledger != [] {
      SpentWithoutRows(ledger[..|ledger| - 1], user);
    }
  }

  /** The portfolio lists exactly the symbols whose summed shares are
      strictly positive, each with that sum. */
  lemma PortfolioExact(ledger: seq<Row>, user: UserId, symbol: string)
    ensures symbol in Portfolio(ledger, user) <==> Holding(ledger, user, symbol) > 0
    ensures symbol in Portfolio(ledger, user) ==> Portfolio(ledger, user)[symbol] == Holding(ledger, user, symbol)
  {
    if symbol !in Symbols(ledger, user) {
      HoldingWithoutRows(ledger, user, symbol);
    }
  }

  /** A row adds to the sum of its own user and symbol only. */
  lemma {:induction false} HoldingSplit(a: seq<Row>, b: seq<Row>, user: UserId, symbol: string)
    ensures Holding(a + b, user, symbol) == Holding(a, user, symbol) + Holding(b, user, symbol)
    decreases |b|
  {
    if b == [] {
      assert a + b == a;
    } else {
      var init := b[..|b| - 1];
      var last := b[|b| - 1];
      assert a + b == (a + init) + [last];
      assert b == init + [last];
      HoldingAppend(a + init, last, user, symbol);
      HoldingAppend(init, last, user, symbol);
      HoldingSplit(a, init, user, symbol);
    }
  }

  /** The history keeps the ledger's order: it distributes over any cut of the ledger. */
  lemma {:induction false} HistorySplit(a: seq<Row>, b: seq<Row>, user: UserId)
    ensures History(a + b, user) == History(a, user) + History(b, user)
    decreases |b|
  {
    if b == [] {
      assert a + b == a;
    } else {
      var init := b[..|b| - 1];
      var last := b[|b| - 1];
      assert a + b == (a + init) + [last];
      assert b == init + [last];
      HistoryAppend(a + init, last, user);
      HistoryAppend(init, last, user);
      HistorySplit(a, init, user);
    }
  }

  // ---------------------------------------------------------------------
  // The loops that build the portfolio and the sell page's symbol list

  /** `GROUP BY symbol` with `SUM(shares)` over the user's rows: the groups in
      order of first appearance, and the sum of each. */
  method GroupSums(ledger: seq<Row>, user: UserId) returns (groups: seq<string>, sums: map<string, int>)
    ensures sums.Keys == Symbols(ledger, user)
    ensures forall s :: s in sums ==> sums[s] == Holding(ledger, user, s)
    ensures forall s :: s in sums <==> s in groups
    ensures forall j, k :: 0 <= j < k < |groups| ==> groups[j] != groups[k]
  {
    groups, sums := [], map[];
    var i := 0;
    while i < |ledger|
      invariant 0 <= i <= |ledger|
      invariant sums.Keys == Symbols(ledger[..i], user)
      invariant forall s :: s in sums ==> sums[s] == Holding(ledger[..i], user, s)
      invariant forall s :: s in sums <==> s in groups
      invariant forall j, k :: 0 <= j < k < |groups| ==> groups[j] != groups[k]
    {
      var row := ledger[i];
      assert ledger[..i + 1] == ledger[..i] + [row];
      SymbolsAppend(ledger[..i], row, user);
      forall s ensures Holding(ledger[..i + 1], user, s) ==
                       Holding(ledger[..i], user, s) + (if row.user == user && row.symbol == s then row.shares else 0) {
        HoldingAppend(ledger[..i], row, user, s);
      }
      if row.user == user {
        if row.symbol in sums {
          sums := sums[row.symbol := sums[row.symbol] + row.shares];
        } else {
          HoldingWithoutRows(ledger[..i], user, row.symbol);
          groups := groups + [row.symbol];
          sums := sums[row.symbol := row.shares];
        }
      }
      i := i + 1;
    }
    assert ledger[..i] == ledger;
  }

  /** The symbols of a list of positions, in order. */
  function PositionSymbols(positions: seq<Position>): (r: seq<string>)
    ensures |r| == |positions|
    ensures forall k :: 0 <= k < |r| ==> r[k] == positions[k].symbol
  {
    if positions == [] then []
    else PositionSymbols(positions[..|positions| - 1]) + [positions[|positions| - 1].symbol]
  }

  /** No element occurs twice. */
  predicate Distinct(s: seq<string>)
  {
    forall j, k :: 0 <= j < k < |s| ==> s[j] != s[k]
  }

  /** The grouped, filtered query of the index and sell pages and the loop over
      its rows: one position per symbol whose summed shares are strictly
      positive, carrying that sum, and no symbol twice. */
  method PortfolioRows(ledger: seq<Row>, user: UserId) returns (positions: seq<Position>)
    ensures forall k :: 0 <= k < |positions| ==> positions[k].shares == Holding(ledger, user, positions[k].symbol)
    ensures forall s :: s in PositionSymbols(positions) <==> Holding(ledger, user, s) > 0
    ensures Distinct(PositionSymbols(positions))
  {
    var groups, sums := GroupSums(ledger, user);
    // WHERE total_shares > 0
    positions := [];
    var k := 0;
    while k < |groups|
      invariant 0 <= k <= |groups|
      invariant forall m :: 0 <= m < |positions| ==>
                  positions[m].symbol in sums && positions[m].shares == sums[positions[m].symbol]
      invariant forall s :: s in PositionSymbols(positions) <==> s in groups[..k] && sums[s] > 0
      invariant Distinct(PositionSymbols(positions))
    {
      var s := groups[k];
      assert groups[..k + 1] == groups[..k] + [s];
      if sums[s] > 0 {
        assert s !in groups[..k];
        positions := positions + [Position(s, sums[s])];
      }
      k := k + 1;
    }
    assert groups[..k] == groups;
    forall s ensures s in PositionSymbols(positions) <==> Holding(ledger, user, s) > 0 {
      if s !in sums {
        HoldingWithoutRows(ledger, user, s);
      }
    }
  }

  /** The symbol list offered on the sell page, built by appending the symbol
      of every row of the grouped query. */
  method SellableSymbols(ledger: seq<Row>, user: UserId) returns (stocks: seq<string>)
    ensures forall s :: s in stocks <==> Holding(ledger, user, s) > 0
    ensures Distinct(stocks)
  {
    var rows := PortfolioRows(ledger, user);
    stocks := [];
    var k := 0;
    while k < |rows|
      invariant 0 <= k <= |rows|
      invariant stocks == PositionSymbols(rows[..k])
    {
      assert rows[..k + 1] == rows[..k] + [rows[k]];
      stocks := stocks + [rows[k].symbol];
      k := k + 1;
    }
    assert rows[..k] == rows;
  }
}
