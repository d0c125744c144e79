/** The portfolio engine of the request handlers: the validation chains of
    buy, sell, quote and register as pure decisions, and the effect a
    committed trade has on the cash balances and the ledger. */
module Engine {

  import opened Wrappers
  import opened Forms
  import opened Ledger

  /** What the quote provider returns for a symbol it knows: its canonical
      symbol, the company name and the unit price in cents. */
  datatype Quote = Quote(symbol: string, name: string, price: nat)

  /** One call of the quote provider: it raised, it returned `None`, or it
      returned a quote. */
  datatype Lookup = Raised | NoQuote | Found(quote: Quote)

  /** The apologies (HTTP 400 pages) the handlers return. */
  datatype Apology =
    | SymbolBlank        // "Symbol is blank"
    | InvalidSymbol      // the provider raised ("Invalid Symbol"), or any quote failure on the quote page
    | SymbolMissing      // the provider returned None in buy ("Symbol doesn't exist")
    | SharesBlank        // "Number of shares is blank" / "Shares is blank"
    | NotAnInt           // `int(shares)` raised
    | NotPositive        // "Please provide a positive input" / "Number of shares must be positive"
    | NotEnoughCash      // "Not enough cash!"
    | NotOwned           // "You don't own this stock"
    | NotEnoughShares    // "You don't have that many"
    | UsernameBlank
    | UsernameTaken
    | PasswordBlank
    | ConfirmationBlank
    | PasswordMismatch

  /** Exceptions the sell handler does not catch (an HTTP 500). */
  datatype Fault =
    | NoneHolding        // `None < 1`: the user has no rows for the submitted symbol
    | NoneQuote          // `None["price"]`: the provider returned None

  /** How one buy or sell request ends.  `Commit` carries the row's symbol,
      signed share count and unit price. */
  datatype Verdict =
    | Rejected(why: Apology)
    | Crashed(fault: Fault)
    | Commit(symbol: string, shares: int, price: nat)

  datatype Result<+T> = Ok(value: T) | Err(why: Apology)

  /** The share count the sell handler uses when the form has no `shares` field. */
  const DefaultSellShares: int := 400

  // ---------------------------------------------------------------------
  // The validation chains

  /** app.py `buy`: blank symbol, quote, blank shares, `int()`, `< 1`, cost
      against the cash balance, in that order.  `cash` is the user's balance. */
  function BuyDecision(cash: int, symbol: Option<string>, shares: Option<string>, lookup: string -> Lookup): (v: Verdict)
    ensures !v.Crashed?
    ensures v.Commit? ==> v.shares >= 1 && v.price * v.shares <= cash
  {
    if Blank(symbol) then Rejected(SymbolBlank)
    else match lookup(symbol.value)
      case Raised => Rejected(InvalidSymbol)
      case NoQuote => Rejected(SymbolMissing)
      case Found(q) =>
        if Blank(shares) then Rejected(SharesBlank)
        else match ParseInt(shares.value)
          case None => Rejected(NotAnInt)
          case Some(n) =>
            if n < 1 then Rejected(NotPositive)
            else if q.price * n > cash then Rejected(NotEnoughCash)
            else Commit(q.symbol, n, q.price)
  }

  /** The share count of a sell form: a missing field means 400, a present
      one goes through `int()`. */
  function SellShares(shares: Option<string>): Option<int>
  {
    if shares.None? then Some(DefaultSellShares) else ParseInt(shares.value)
  }

  /** app.py `sell`: blank symbol, `int()`, zero, sign, the holding for the
      submitted symbol, then the quote.  The holding is looked up under the
      symbol as typed; the new row carries the provider's symbol. */
  function SellDecision(ledger: seq<Row>, user: UserId, symbol: Option<string>, shares: Option<string>,
                        lookup: string -> Lookup): (v: Verdict)
    ensures v.Commit? ==> symbol.Some? && v.shares <= -1 &&
                          -v.shares <= Holding(ledger, user, symbol.value)
  {
    if Blank(symbol) then Rejected(SymbolBlank)
    else match SellShares(shares)
      case None => Rejected(NotAnInt)
      case Some(n) =>
        if n == 0 then Rejected(SharesBlank)
        else if n <= 0 then Rejected(NotPositive)
        else match AvailableShares(ledger, user, symbol.value)
          case None => Crashed(NoneHolding)
          case Some(held) =>
            if held < 1 then Rejected(NotOwned)
            else if n > held then Rejected(NotEnoughShares)
            else match lookup(symbol.value)
              case Raised => Rejected(InvalidSymbol)
              case NoQuote => Crashed(NoneQuote)
              case Found(q) => Commit(q.symbol, -n, q.price)
  }

  /** app.py `quote`: a blank symbol, or any failure of the provider, is an apology. */
  function QuoteRequest(symbol: Option<string>, lookup: string -> Lookup): (r: Result<Quote>)
    ensures r.Err? ==> r.why == SymbolBlank || r.why == InvalidSymbol
  {
    if Blank(symbol) then Err(SymbolBlank)
    else match lookup(symbol.value)
      case Found(q) => Ok(q)
      case _ => Err(InvalidSymbol)
  }

  /** app.py `register`: blank username, taken username, blank password,
      blank confirmation, mismatch, in that order; on success the new username. */
  function RegisterDecision(taken: set<string>, username: Option<string>, password: Option<string>,
                            confirmation: Option<string>): (r: Result<string>)
    ensures r.Ok? ==> username == Some(r.value) && r.value != "" && r.value !in taken
  {
    if Blank(username) then Err(UsernameBlank)
    else if username.value in taken then Err(UsernameTaken)
    else if Blank(password) then Err(PasswordBlank)
    else if Blank(confirmation) then Err(ConfirmationBlank)
    else if password != confirmation then Err(PasswordMismatch)
    else Ok(username.value)
  }

  // ---------------------------------------------------------------------
  // The effect of a verdict

  /** `UPDATE users SET cash = ?`: a trade of `shares` at `price` moves
      `price * shares` out of the acting user's balance (into it for a sell,
      whose shares are negative); any other verdict leaves the balances alone. */
  function Settle(cash: map<UserId, int>, user: UserId, v: Verdict): (c: map<UserId, int>)
    requires user in cash
    ensures c.Keys == cash.Keys
    ensures forall u :: u in cash && u != user ==> c[u] == cash[u]
    ensures !v.Commit? ==> c == cash
    ensures v.Commit? ==> c[user] == cash[user] - v.price * v.shares
  {
    if v.Commit? then cash[user := cash[user] - v.price * v.shares] else cash
  }

  /** `INSERT INTO purchases`: a committed trade appends exactly one row for
      the acting user; any other verdict leaves the ledger alone. */
  function Record(ledger: seq<Row>, user: UserId, v: Verdict): (l: seq<Row>)
    ensures |l| == |ledger| + (if v.Commit? then 1 else 0)
    ensures l[..|ledger|] == ledger
    ensures forall i :: |ledger| <= i < |l| ==> l[i] == Row(user, v.symbol, v.shares, v.price)
  {
    if v.Commit? then ledger + [Row(user, v.symbol, v.shares, v.price)] else ledger
  }

  // ---------------------------------------------------------------------
  // Buy

  /** A buy commits exactly when every check passes, and then records the
      provider's symbol and price with the parsed share count. */
  lemma BuyCommits(cash: int, symbol: Option<string>, shares: Option<string>, lookup: string -> Lookup)
    ensures BuyDecision(cash, symbol, shares, lookup).Commit? <==>
              && !Blank(symbol) && lookup(symbol.value).Found?
              && !Blank(shares) && ParseInt(shares.value).Some?
              && ParseInt(shares.value).value >= 1
              && lookup(symbol.value).quote.price * ParseInt(shares.value).value <= cash
    ensures BuyDecision(cash, symbol, shares, lookup).Commit? ==>
              var q := lookup(symbol.value).quote;
              BuyDecision(cash, symbol, shares, lookup) == Commit(q.symbol, ParseInt(shares.value).value, q.price)
  {
  }

  /** The buy checks run in order: each failure is reported without looking at
      anything a later check would read. */
  lemma BuyCheckOrder(cash: int, cash': int, symbol: Option<string>, shares: Option<string>, shares': Option<string>,
                      lookup: string -> Lookup, lookup': string -> Lookup)
    ensures Blank(symbol) ==> BuyDecision(cash, symbol, shares, lookup) == Rejected(SymbolBlank)
    ensures !Blank(symbol) && lookup(symbol.value) == Raised ==>
              BuyDecision(cash, symbol, shares, lookup) == BuyDecision(cash', symbol, shares', lookup) == Rejected(InvalidSymbol)
    ensures !Blank(symbol) && lookup(symbol.value) == NoQuote ==>
              BuyDecision(cash, symbol, shares, lookup) == BuyDecision(cash', symbol, shares', lookup) == Rejected(SymbolMissing)
    ensures !Blank(symbol) && lookup(symbol.value).Found? && Blank(shares) ==>
              BuyDecision(cash, symbol, shares, lookup) == BuyDecision(cash', symbol, shares, lookup) == Rejected(SharesBlank)
    ensures !Blank(symbol) && lookup(symbol.value).Found? && !Blank(shares) && ParseInt(shares.value).None? ==>
              BuyDecision(cash, symbol, shares, lookup) == BuyDecision(cash', symbol, shares, lookup) == Rejected(NotAnInt)
    ensures !Blank(symbol) && lookup(symbol.value).Found? && !Blank(shares) && ParseInt(shares.value).Some? &&
            ParseInt(shares.value).value < 1 ==>
              BuyDecision(cash, symbol, shares, lookup) == BuyDecision(cash', symbol, shares, lookup) == Rejected(NotPositive)
    ensures !Blank(symbol) && lookup(symbol.value).Found? && !Blank(shares) && ParseInt(shares.value).Some? &&
            ParseInt(shares.value).value >= 1 &&
            lookup(symbol.value).quote.price * ParseInt(shares.value).value > cash ==>
              BuyDecision(cash, symbol, shares, lookup) == Rejected(NotEnoughCash)
    ensures Blank(symbol) ==> BuyDecision(cash, symbol, shares, lookup) == BuyDecision(cash', symbol, shares', lookup')
  {
  }

  /** The example of a too-expensive buy: 100.00 in cash, three shares at 50.00. */
  lemma BuyTooExpensive(lookup: string -> Lookup)
    requires lookup("NFLX") == Found(Quote("NFLX", "Netflix, Inc.", 5000))
    ensures BuyDecision(10000, Some("NFLX"), Some("3"), lookup) == Rejected(NotEnoughCash)
  {
    assert ParseInt("3") == Some(3) by { ParseShowInt(3); assert ShowInt(3) == "3"; }
  }

  /** The example of an affordable buy: 100.00 in cash, five shares at 10.00
      leave 50.00 and one row of +5 at 10.00. */
  lemma BuyAffordable(lookup: string -> Lookup, ledger: seq<Row>)
    requires lookup("ACME") == Found(Quote("ACME", "Acme Corp.", 1000))
    ensures var v := BuyDecision(10000, Some("ACME"), Some("5"), lookup);
            && v == Commit("ACME", 5, 1000)
            && Settle(map[7 := 10000], 7, v)[7] == 5000
            && Record(ledger, 7, v) == ledger + [Row(7, "ACME", 5, 1000)]
  {
    assert ParseInt("5") == Some(5) by { ParseShowInt(5); assert ShowInt(5) == "5"; }
  }

  // ---------------------------------------------------------------------
  // Sell

  /** A sell commits exactly when every check passes; then it records minus
      the requested count at the provider's price under the provider's symbol. */
  lemma SellCommits(ledger: seq<Row>, user: UserId, symbol: Option<string>, shares: Option<string>,
                    lookup: string -> Lookup)
    ensures SellDecision(ledger, user, symbol, shares, lookup).Commit? <==>
              && !Blank(symbol) && SellShares(shares).Some? && SellShares(shares).value >= 1
              && symbol.value in Symbols(ledger, user)
              && SellShares(shares).value <= Holding(ledger, user, symbol.value)
              && lookup(symbol.value).Found?
    ensures SellDecision(ledger, user, symbol, shares, lookup).Commit? ==>
              var q := lookup(symbol.value).quote;
              SellDecision(ledger, user, symbol, shares, lookup) == Commit(q.symbol, -SellShares(shares).value, q.price)
  {
  }

  /** The sell handler's two uncaught exceptions and when they happen. */
  lemma SellCrashes(ledger: seq<Row>, user: UserId, symbol: Option<string>, shares: Option<string>,
                    lookup: string -> Lookup)
    ensures SellDecision(ledger, user, symbol, shares, lookup) == Crashed(NoneHolding) <==>
              && !Blank(symbol) && SellShares(shares).Some? && SellShares(shares).value >= 1
              && symbol.value !in Symbols(ledger, user)
    ensures SellDecision(ledger, user, symbol, shares, lookup) == Crashed(NoneQuote) <==>
              && !Blank(symbol) && SellShares(shares).Some? && SellShares(shares).value >= 1
              && symbol.value in Symbols(ledger, user)
              && SellShares(shares).value <= Holding(ledger, user, symbol.value)
              && lookup(symbol.value) == NoQuote
  {
  }

  /** The form quirks of sell: a missing `shares` field is a request for 400
      shares, an empty one is not an integer, and zero reads as blank. */
  lemma SellSharesQuirks(ledger: seq<Row>, user: UserId, sym: string, lookup: string -> Lookup)
    requires sym != ""
    ensures SellShares(None) == Some(400)
    ensures SellShares(Some("")) == None
    ensures SellShares(Some("0")) == Some(0)
    ensures SellDecision(ledger, user, Some(sym), Some(""), lookup) == Rejected(NotAnInt)
    ensures SellDecision(ledger, user, Some(sym), Some("0"), lookup) == Rejected(SharesBlank)
  {
    assert ParseInt("") == None by { assert Strip("") == [] && !DigitGroups([]); }
    assert ParseInt("0") == Some(0) by { ParseShowInt(0); assert ShowInt(0) == "0"; }
    SellCheckOrder(ledger, user, Some(sym), Some(""), lookup);
    SellCheckOrder(ledger, user, Some(sym), Some("0"), lookup);
  }

  /** The sell checks run in order, and each one that fails gives its own
      apology: blank symbol, not an int, zero, negative, not owned, not that many. */
  lemma SellCheckOrder(ledger: seq<Row>, user: UserId, symbol: Option<string>, shares: Option<string>,
                       lookup: string -> Lookup)
    ensures Blank(symbol) ==> SellDecision(ledger, user, symbol, shares, lookup) == Rejected(SymbolBlank)
    ensures !Blank(symbol) && SellShares(shares).None? ==>
              SellDecision(ledger, user, symbol, shares, lookup) == Rejected(NotAnInt)
    ensures !Blank(symbol) && SellShares(shares) == Some(0) ==>
              SellDecision(ledger, user, symbol, shares, lookup) == Rejected(SharesBlank)
    ensures !Blank(symbol) && SellShares(shares).Some? && SellShares(shares).value < 0 ==>
              SellDecision(ledger, user, symbol, shares, lookup) == Rejected(NotPositive)
    ensures !Blank(symbol) && SellShares(shares).Some? && SellShares(shares).value >= 1 &&
            symbol.value in Symbols(ledger, user) && Holding(ledger, user, symbol.value) < 1 ==>
              SellDecision(ledger, user, symbol, shares, lookup) == Rejected(NotOwned)
    ensures !Blank(symbol) && SellShares(shares).Some? && symbol.value in Symbols(ledger, user) &&
            1 <= Holding(ledger, user, symbol.value) < SellShares(shares).value ==>
              SellDecision(ledger, user, symbol, shares, lookup) == Rejected(NotEnoughShares)
  {
  }

  /** The example of selling more than is held: five shares held, six requested. */
  lemma SellTooMany(lookup: string -> Lookup)
    ensures SellDecision([Row(7, "NFLX", 5, 1000)], 7, Some("NFLX"), Some("6"), lookup) == Rejected(NotEnoughShares)
  {
    var ledger := [Row(7, "NFLX", 5, 1000)];
    assert ParseInt("6") == Some(6) by { ParseShowInt(6); assert ShowInt(6) == "6"; }
    assert ledger[0].user == 7;
    assert "NFLX" in Symbols(ledger, 7);
    assert Holding(ledger, 7, "NFLX") == 5 by {
      assert ledger[..0] == [];
    }
  }

  /** The holding checks come before the quote: whatever the provider would
      say, a request that fails them fails the same way. */
  lemma {:induction false} SellHoldingsBeforeQuote(ledger: seq<Row>, user: UserId, symbol: Option<string>,
                                                   shares: Option<string>, lookup: string -> Lookup,
                                                   lookup': string -> Lookup)
    ensures var v := SellDecision(ledger, user, symbol, shares, lookup);
            !v.Commit? && v != Rejected(InvalidSymbol) && v != Crashed(NoneQuote) ==>
              SellDecision(ledger, user, symbol, shares, lookup') == v
    ensures var v := SellDecision(ledger, user, symbol, shares, lookup);
            v.Commit? || v == Rejected(InvalidSymbol) || v == Crashed(NoneQuote) ==>
              && symbol.Some? && SellShares(shares).Some?
              && 1 <= SellShares(shares).value <= Holding(ledger, user, symbol.value)
  {
  }

  /** After a committed sell the submitted symbol's holding is the old one
      minus the shares sold, never below zero, when the provider returns the
      symbol as submitted; otherwise the row lands under the provider's
      symbol and the submitted symbol's holding is unchanged. */
  lemma {:induction false} SellReducesHolding(ledger: seq<Row>, user: UserId, symbol: Option<string>,
                                              shares: Option<string>, lookup: string -> Lookup)
    requires SellDecision(ledger, user, symbol, shares, lookup).Commit?
    ensures var v := SellDecision(ledger, user, symbol, shares, lookup);
            var after := Holding(Record(ledger, user, v), user, symbol.value);
            && (v.symbol == symbol.value ==> after == Holding(ledger, user, symbol.value) - SellShares(shares).value >= 0)
            && (v.symbol != symbol.value ==> after == Holding(ledger, user, symbol.value))
  {
    var v := SellDecision(ledger, user, symbol, shares, lookup);
    SellCommits(ledger, user, symbol, shares, lookup);
    HoldingAppend(ledger, Row(user, v.symbol, v.shares, v.price), user, symbol.value);
  }

  /** Selling the whole holding removes the symbol from the portfolio while
      its rows stay in the history. */
  lemma {:induction false} SellOutVanishes(ledger: seq<Row>, user: UserId, sym: string, lookup: string -> Lookup)
    requires sym != "" && sym in Symbols(ledger, user) && Holding(ledger, user, sym) >= 1
    requires lookup(sym).Found? && lookup(sym).quote.symbol == sym
    ensures var v := SellDecision(ledger, user, Some(sym), Some(ShowInt(Holding(ledger, user, sym))), lookup);
            var after := Record(ledger, user, v);
            && v.Commit?
            && sym !in Portfolio(after, user)
            && sym in Portfolio(ledger, user)
            && sym in Symbols(after, user)
            && |History(after, user)| == |History(ledger, user)| + 1
  {
    var h := Holding(ledger, user, sym);
    var price := lookup(sym).quote.price;
    SellWholeHolding(ledger, user, sym, lookup);
    var row := Row(user, sym, -h, price);
    var after := ledger + [row];
    assert Record(ledger, user, Commit(sym, -h, price)) == after;
    HoldingAppend(ledger, row, user, sym);
    PortfolioExact(after, user, sym);
    PortfolioExact(ledger, user, sym);
    SymbolsAppend(ledger, row, user);
    HistoryAppend(ledger, row, user);
  }

  /** Submitting the whole holding, as `str()` renders it, commits a sell of all of it. */
  lemma SellWholeHolding(ledger: seq<Row>, user: UserId, sym: string, lookup: string -> Lookup)
    requires sym != "" && sym in Symbols(ledger, user) && Holding(ledger, user, sym) >= 1
    requires lookup(sym).Found?
    ensures SellDecision(ledger, user, Some(sym), Some(ShowInt(Holding(ledger, user, sym))), lookup) ==
            Commit(lookup(sym).quote.symbol, -Holding(ledger, user, sym), lookup(sym).quote.price)
  {
    var h := Holding(ledger, user, sym);
    ParseShowInt(h);
    assert SellShares(Some(ShowInt(h))) == Some(h);
    assert AvailableShares(ledger, user, sym) == Some(h);
  }

  // ---------------------------------------------------------------------
  // Frames and invariants of a trade

  /** A trade touches only the acting user: every other user's holdings,
      history and amount spent are as before, and earlier rows are kept. */
  lemma {:induction false} TradeFrame(ledger: seq<Row>, user: UserId, v: Verdict, other: UserId, sym: string)
    requires other != user
    ensures Holding(Record(ledger, user, v), other, sym) == Holding(ledger, other, sym)
    ensures History(Record(ledger, user, v), other) == History(ledger, other)
    ensures Spent(Record(ledger, user, v), other) == Spent(ledger, other)
  {
    if v.Commit? {
      var row := Row(user, v.symbol, v.shares, v.price);
      HoldingAppend(ledger, row, other, sym);
      HistoryAppend(ledger, row, other);
      SpentAppend(ledger, row, other);
    }
  }

  /** The acting user's history grows by the new row and nothing else. */
  lemma {:induction false} TradeHistory(ledger: seq<Row>, user: UserId, v: Verdict)
    ensures History(Record(ledger, user, v), user) ==
              History(ledger, user) + (if v.Commit? then [Row(user, v.symbol, v.shares, v.price)] else [])
  {
    if v.Commit? {
      HistoryAppend(ledger, Row(user, v.symbol, v.shares, v.price), user);
    }
  }

  /** Cash plus the net amount spent is the same before and after any verdict,
      for every user: the balance can always be rebuilt from the ledger. */
  lemma {:induction false} TradeBalances(cash: map<UserId, int>, ledger: seq<Row>, user: UserId, v: Verdict, u: UserId)
    requires user in cash && u in cash
    ensures Settle(cash, user, v)[u] + Spent(Record(ledger, user, v), u) == cash[u] + Spent(ledger, u)
  {
    if v.Commit? {
      SpentAppend(ledger, Row(user, v.symbol, v.shares, v.price), u);
    }
  }

  /** A buy never drives cash below zero. */
  lemma BuyKeepsCashNonNegative(cash: map<UserId, int>, user: UserId, symbol: Option<string>,
                                shares: Option<string>, lookup: string -> Lookup)
    requires user in cash && cash[user] >= 0
    ensures Settle(cash, user, BuyDecision(cash[user], symbol, shares, lookup))[user] >= 0
  {
  }

  /** A sell never lowers the seller's cash. */
  lemma SellRaisesCash(cash: map<UserId, int>, ledger: seq<Row>, user: UserId, symbol: Option<string>,
                       shares: Option<string>, lookup: string -> Lookup)
    requires user in cash
    ensures Settle(cash, user, SellDecision(ledger, user, symbol, shares, lookup))[user] >= cash[user]
  {
    var v := SellDecision(ledger, user, symbol, shares, lookup);
    if v.Commit? {
      ProceedsNonNegative(v.shares, v.price);
    }
  }

  lemma ProceedsNonNegative(shares: int, price: nat)
    requires shares <= 0
    ensures price * shares <= 0
  {
  }

  /** The provider maps every symbol already stored in the ledger to itself. */
  ghost predicate KeepsStoredSymbols(ledger: seq<Row>, lookup: string -> Lookup)
  {
    forall i :: 0 <= i < |ledger| && lookup(ledger[i].symbol).Found? ==>
      lookup(ledger[i].symbol).quote.symbol == ledger[i].symbol
  }

  /** No holding of the user is negative. */
  ghost predicate NoShortPositions(ledger: seq<Row>, user: UserId)
  {
    forall s :: Holding(ledger, user, s) >= 0
  }

  /** A sell never drives a holding below zero, provided the provider keeps
      the symbols already in the ledger (otherwise the row lands under a
      symbol that was never checked). */
  lemma {:induction false} SellKeepsNoShortPositions(ledger: seq<Row>, user: UserId, symbol: Option<string>,
                                                     shares: Option<string>, lookup: string -> Lookup)
    requires NoShortPositions(ledger, user)
    requires KeepsStoredSymbols(ledger, lookup)
    ensures NoShortPositions(Record(ledger, user, SellDecision(ledger, user, symbol, shares, lookup)), user)
  {
    var v := SellDecision(ledger, user, symbol, shares, lookup);
    if v.Commit? {
      SellCommits(ledger, user, symbol, shares, lookup);
      var i :| 0 <= i < |ledger| && ledger[i].user == user && ledger[i].symbol == symbol.value;
      assert v.symbol == symbol.value;
      SellReducesHolding(ledger, user, symbol, shares, lookup);
      var row := Row(user, v.symbol, v.shares, v.price);
      forall s ensures Holding(ledger + [row], user, s) >= 0 {
        HoldingAppend(ledger, row, user, s);
      }
    }
  }

  /** A buy only adds shares, so it never creates a short position. */
  lemma {:induction false} BuyKeepsNoShortPositions(ledger: seq<Row>, user: UserId, cash: int, symbol: Option<string>,
                                                    shares: Option<string>, lookup: string -> Lookup)
    requires NoShortPositions(ledger, user)
    ensures NoShortPositions(Record(ledger, user, BuyDecision(cash, symbol, shares, lookup)), user)
  {
    var v := BuyDecision(cash, symbol, shares, lookup);
    if v.Commit? {
      var row := Row(user, v.symbol, v.shares, v.price);
      forall s ensures Holding(ledger + [row], user, s) >= 0 {
        HoldingAppend(ledger, row, user, s);
      }
    }
  }

  // ---------------------------------------------------------------------
  // Quote and register

  /** The quote page shows a quote exactly when the symbol is not blank and
      the provider returns one; it is the provider's quote. */
  lemma QuoteShown(symbol: Option<string>, lookup: string -> Lookup)
    ensures QuoteRequest(symbol, lookup).Ok? <==> !Blank(symbol) && lookup(symbol.value).Found?
    ensures QuoteRequest(symbol, lookup).Ok? ==> QuoteRequest(symbol, lookup).value == lookup(symbol.value).quote
  {
  }

  /** Registration succeeds exactly when all five checks pass, and reports the
      first failing check otherwise. */
  lemma RegisterChecks(taken: set<string>, username: Option<string>, password: Option<string>,
                       confirmation: Option<string>)
    ensures RegisterDecision(taken, username, password, confirmation).Ok? <==>
              !Blank(username) && username.value !in taken && !Blank(password) && password == confirmation
    ensures Blank(username) ==> RegisterDecision(taken, username, password, confirmation) == Err(UsernameBlank)
    ensures !Blank(username) && username.value in taken ==>
              RegisterDecision(taken, username, password, confirmation) == Err(UsernameTaken)
    ensures !Blank(username) && username.value !in taken && Blank(password) ==>
              RegisterDecision(taken, username, password, confirmation) == Err(PasswordBlank)
    ensures !Blank(username) && username.value !in taken && !Blank(password) && Blank(confirmation) ==>
              RegisterDecision(taken, username, password, confirmation) == Err(ConfirmationBlank)
    ensures !Blank(username) && username.value !in taken && !Blank(password) && !Blank(confirmation) &&
            password != confirmation ==>
              RegisterDecision(taken, username, password, confirmation) == Err(PasswordMismatch)
  {
  }
}
