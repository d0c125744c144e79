/** The application's state (the `users` and `purchases` tables) and the
    POST handlers that change it, one atomic step per request.  The session
    user arrives as a parameter; the quote provider and the password hasher
    are passed in as functions. */
module App {

  import opened Wrappers
  import opened Forms
  import opened Ledger
  import opened Engine

  /** The invariant of the two tables, over their values: users are numbered
      1, 2, ... with unique usernames; every row belongs to a user; no balance
      is negative, and each balance is the starting cash minus what the user
      has spent according to the ledger. */
  ghost predicate Consistent(start: nat, usernames: map<UserId, string>, credentials: map<UserId, string>,
                             cash: map<UserId, int>, ledger: seq<Row>, nextId: UserId)
  {
    && usernames.Keys == credentials.Keys == cash.Keys
    && nextId >= 1
    && (forall u :: u in cash <==> 0 < u < nextId)
    && (forall a, b :: a in usernames && b in usernames && a != b ==> usernames[a] != usernames[b])
    && (forall i :: 0 <= i < |ledger| ==> ledger[i].user in cash)
    && (forall u :: u in cash ==> cash[u] >= 0 && cash[u] + Spent(ledger, u) == start)
  }

  /** A trade that leaves the acting user's cash non-negative keeps the invariant. */
  lemma TradeKeepsConsistent(start: nat, usernames: map<UserId, string>, credentials: map<UserId, string>,
                             cash: map<UserId, int>, ledger: seq<Row>, nextId: UserId, user: UserId, v: Verdict)
    requires Consistent(start, usernames, credentials, cash, ledger, nextId)
    requires user in cash && Settle(cash, user, v)[user] >= 0
    ensures Consistent(start, usernames, credentials, Settle(cash, user, v), Record(ledger, user, v), nextId)
  {
    var cash', ledger' := Settle(cash, user, v), Record(ledger, user, v);
    forall u | u in cash'
      ensures cash'[u] >= 0 && cash'[u] + Spent(ledger', u) == start
    {
      TradeBalances(cash, ledger, user, v, u);
    }
    forall i | 0 <= i < |ledger'|
      ensures ledger'[i].user in cash'
    {
      if i < |ledger| {
        assert ledger'[i] == ledger[i];
      }
    }
  }

  class Brokerage {
    /** The cash a new user starts with (the schema's default for `users.cash`). */
    const startingCash: nat

    /** `users.username`, `users.hash` and `users.cash`, keyed by `users.id`. */
    var usernames: map<UserId, string>
    var credentials: map<UserId, string>
    var cash: map<UserId, int>
    /** The rows of `purchases`, oldest first. */
    var ledger: seq<Row>
    /** The id the next registered user gets. */
    var nextId: UserId

    ghost predicate Valid()
      reads this
    {
      Consistent(startingCash, usernames, credentials, cash, ledger, nextId)
    }

    constructor (startingCash: nat)
      ensures Valid()
      ensures this.startingCash == startingCash
      ensures usernames == map[] && credentials == map[] && cash == map[] && ledger == [] && nextId == 1
    {
      this.startingCash := startingCash;
      usernames, credentials, cash := map[], map[], map[];
      ledger := [];
      nextId := 1;
    }

    /** POST /buy for the session user: the checks, then `UPDATE users SET
        cash` and `INSERT INTO purchases` together.  The checks are the chain
        `BuyDecision` describes, run against the user's current cash. */
    method Buy(user: UserId, symbol: Option<string>, shares: Option<string>, lookup: string -> Lookup)
      returns (v: Verdict)
      requires Valid() && user in cash
      modifies this
      ensures Valid()
      ensures v == BuyDecision(old(cash[user]), symbol, shares, lookup)
      ensures cash == Settle(old(cash), user, v) && ledger == Record(old(ledger), user, v)
      ensures usernames == old(usernames) && credentials == old(credentials) && nextId == old(nextId)
    {
      v := BuyDecision(cash[user], symbol, shares, lookup);
      BuyKeepsCashNonNegative(cash, user, symbol, shares, lookup);
      TradeKeepsConsistent(startingCash, usernames, credentials, cash, ledger, nextId, user, v);
      // UPDATE users SET cash, then INSERT INTO purchases (both no-ops unless committed)
      cash := Settle(cash, user, v);
      ledger := Record(ledger, user, v);
    }

    /** POST /sell for the session user: the checks, then the cash update and
        the row of negative shares together.  The checks are the chain
        `SellDecision` describes, run against the current ledger. */
    method Sell(user: UserId, symbol: Option<string>, shares: Option<string>, lookup: string -> Lookup)
      returns (v: Verdict)
      requires Valid() && user in cash
      modifies this
      ensures Valid()
      ensures v == SellDecision(old(ledger), user, symbol, shares, lookup)
      ensures cash == Settle(old(cash), user, v) && ledger == Record(old(ledger), user, v)
      ensures usernames == old(usernames) && credentials == old(credentials) && nextId == old(nextId)
    {
      v := SellDecision(ledger, user, symbol, shares, lookup);
      SellRaisesCash(cash, ledger, user, symbol, shares, lookup);
      TradeKeepsConsistent(startingCash, usernames, credentials, cash, ledger, nextId, user, v);
      // UPDATE users SET cash (a credit: the row's shares are negative), then INSERT INTO purchases
      cash := Settle(cash, user, v);
      ledger := Record(ledger, user, v);
    }

    /** POST /register: on success a new user with the next id, the given
        username, the hash of the password and the starting cash. */
    method Register(username: Option<string>, password: Option<string>, confirmation: Option<string>,
                    hash: string -> string)
      returns (r: Result<UserId>)
      requires Valid()
      modifies this
      ensures Valid()
      ensures ledger == old(ledger)
      ensures match RegisterDecision(old(usernames.Values), username, password, confirmation)
              case Err(why) =>
                && r == Err(why)
                && usernames == old(usernames) && credentials == old(credentials)
                && cash == old(cash) && nextId == old(nextId)
              case Ok(name) =>
                && r == Ok(old(nextId))
                && usernames == old(usernames)[old(nextId) := name]
                && credentials == old(credentials)[old(nextId) := hash(password.value)]
                && cash == old(cash)[old(nextId) := startingCash]
                && nextId == old(nextId) + 1
    {
      var decision := RegisterDecision(usernames.Values, username, password, confirmation);
      if decision.Err? {
        return Err(decision.why);
      }
      var id := nextId;
      SpentWithoutRows(ledger, id);
      usernames := usernames[id := decision.value];
      credentials := credentials[id := hash(password.value)];
      cash := cash[id := startingCash];
      nextId := id + 1;
      r := Ok(id);
    }

    /** GET /: the session user's positions and cash (the market valuation of
        the positions is not part of this model). */
    method Index(user: UserId) returns (positions: seq<Position>, available: int)
      requires Valid() && user in cash
      ensures available == cash[user] && available >= 0
      ensures forall k :: 0 <= k < |positions| ==> positions[k].shares == Holding(ledger, user, positions[k].symbol)
      ensures forall s :: s in PositionSymbols(positions) <==> Holding(ledger, user, s) > 0
      ensures Distinct(PositionSymbols(positions))
    {
      positions := PortfolioRows(ledger, user);
      available := cash[user];
    }
  }
}
