/** The read-only handlers of the bank API: the player list with its premium
    classification, the transaction list, the settings view with its
    defaults and the total bank debt, the race list with its status, and the
    page `limit` clamps they share. */
module Api {
  import opened Ledger
  import opened Races

  // ------------------------------------------------------------- limits

  /** `min(int(request.args.get("limit", default)), cap)`: an absent limit
      means `default`; no lower bound is applied here. */
  function EffectiveLimit(requested: Option<int>, default: int, cap: int): (n: int)
    ensures n <= cap
    ensures requested.Some? ==> n <= requested.value && (requested.value <= cap ==> n == requested.value)
    ensures requested.None? ==> n <= default && (default <= cap ==> n == default)
    ensures n == cap || n == (if requested.Some? then requested.value else default)
  {
    var asked := if requested.Some? then requested.value else default;
    if asked <= cap then asked else cap
  }

  /** The limit of the player list and of the transaction list. */
  function ListLimit(requested: Option<int>): (n: int)
    ensures n <= 1000
    ensures requested.None? ==> n == 200
    ensures requested.Some? ==> n == (if requested.value <= 1000 then requested.value else 1000)
  {
    EffectiveLimit(requested, 200, 1000)
  }

  /** The limit of the interest-rate history. */
  function HistoryLimit(requested: Option<int>): (n: int)
    ensures n <= 5000
    ensures requested.None? ==> n == 1000
    ensures requested.Some? ==> n == (if requested.value <= 5000 then requested.value else 5000)
  {
    EffectiveLimit(requested, 1000, 5000)
  }

  /** `LIMIT limit OFFSET offset` on an ordered result. The database rejects
      a negative limit or offset, which the handler reports as an internal
      error. */
  function Page<T>(rows: seq<T>, limit: int, offset: int): (r: Result<seq<T>>)
    ensures r.Err? <==> limit < 0 || offset < 0
    ensures r.Err? ==> r.error == Internal
    ensures r.Ok? ==> |r.value| <= limit
    ensures r.Ok? ==> forall i :: 0 <= i < |r.value| ==> offset + i < |rows| && r.value[i] == rows[offset + i]
    ensures r.Ok? && offset + limit <= |rows| ==> |r.value| == limit
    ensures r.Ok? && offset <= |rows| <= offset + limit ==> |r.value| == |rows| - offset
  {
    if limit < 0 || offset < 0 then Err(Internal)
    else if offset >= |rows| then Ok([])
    else if offset + limit <= |rows| then Ok(rows[offset..offset + limit])
    else Ok(rows[offset..])
  }

  function OffsetOf(requested: Option<int>): int {
    if requested.Some? then requested.value else 0
  }

  // ------------------------------------------------- settings and defaults

  /** The `settings` row the player list and the settings view use when
      there is no row. */
  const DefaultBankSettings: BankSettings :=
    BankSettings(Some(0.07), Some(0.05), Some(0.06), Some(1000000000.0))

  /** The `horse_race_settings` row the settings view uses when there is no row. */
  const DefaultRaceSettings: RaceSettings :=
    RaceSettings(Some(50.0), Some(30.0), Some(20.0), Some(100.0), Some(10.0), Some("No rules set"))

  function BankSettingsOrDefault(s: Option<BankSettings>): BankSettings {
    if s.Some? then s.value else DefaultBankSettings
  }

  function RaceSettingsOrDefault(s: Option<RaceSettings>): RaceSettings {
    if s.Some? then s.value else DefaultRaceSettings
  }

  datatype BankView = BankView(payoutFeePct: real, interestRateNormal: real,
                               interestRatePremium: real, premiumMinBalance: real)

  datatype RaceSettingsView = RaceSettingsView(winner1Pct: real, winner2Pct: real, winner3Pct: real,
                                               entryFee: real, imperialCut: real, rules: string)

  datatype SettingsView = SettingsView(bank: BankView, horseRace: RaceSettingsView, totalBankDebt: real)

  /** `float(x or 0)`: a NULL column reads as 0. */
  function OrZero(x: Option<real>): (r: real)
    ensures x.Some? ==> r == x.value
    ensures x.None? ==> r == 0.0
  {
    OrElse(x, 0.0)
  }

  /** The settings handler: each column of the row (or of its default) with
      NULL read as 0, the rules text with NULL read as "", and the sum of the
      balances of the active accounts. */
  function SettingsResponse(bank: Option<BankSettings>, race: Option<RaceSettings>,
                            accounts: seq<Account>): (v: SettingsView)
    ensures bank.None? ==> v.bank == BankView(0.07, 0.05, 0.06, 1000000000.0)
    ensures race.None? ==> v.horseRace == RaceSettingsView(50.0, 30.0, 20.0, 100.0, 10.0, "No rules set")
    ensures bank.Some? ==>
              v.bank == BankView(OrZero(bank.value.payoutFeePct), OrZero(bank.value.normalRate),
                                 OrZero(bank.value.premiumRate), OrZero(bank.value.premiumRequirement))
    ensures race.Some? ==>
              v.horseRace.winner1Pct == OrZero(race.value.winnerCutPct) &&
              v.horseRace.winner2Pct == OrZero(race.value.secondCutPct) &&
              v.horseRace.winner3Pct == OrZero(race.value.thirdCutPct) &&
              v.horseRace.entryFee == OrZero(race.value.entryFee) &&
              v.horseRace.imperialCut == OrZero(race.value.imperialCutPct) &&
              v.horseRace.rules == (if race.value.rules.Some? then race.value.rules.value else "")
    ensures v.totalBankDebt == TotalDebt(accounts)
  {
    var b := BankSettingsOrDefault(bank);
    var r := RaceSettingsOrDefault(race);
    SettingsView(
      BankView(OrZero(b.payoutFeePct), OrZero(b.normalRate), OrZero(b.premiumRate), OrZero(b.premiumRequirement)),
      RaceSettingsView(OrZero(r.winnerCutPct), OrZero(r.secondCutPct), OrZero(r.thirdCutPct),
                       OrZero(r.entryFee), OrZero(r.imperialCutPct), if r.rules.Some? then r.rules.value else ""),
      TotalDebt(accounts))
  }

  /** The entry fee the settings view shows is the fee an enrolment charges
      exactly when the row stores a non-zero fee: a NULL or 0 fee is shown as
      0 but charged as 100. */
  lemma {:induction false} ShownFeeIsChargedFee(bank: Option<BankSettings>, race: RaceSettings, accounts: seq<Account>)
    ensures var shown := SettingsResponse(bank, Some(race), accounts).horseRace.entryFee;
            shown == EntryTermsOf(race).fee <==> race.entryFee.Some? && race.entryFee.value != 0.0
  {
  }

  // ------------------------------------------------------------ players

  /** What the player list adds to a row: premium or not, and the rate paid. */
  datatype Tier = Tier(isPremium: bool, interestRate: real)

  /** A row of the player list; `tier` is filled in by the classification loop. */
  datatype PlayerRow = PlayerRow(ign: string, balance: real, tier: Option<Tier>)

  /** The premium test of the player list: premium when the balance reaches
      the requirement (NULL read as 0); the rate is the premium or the normal
      rate accordingly, and a NULL rate fails `float(None)`. */
  function Classify(balance: real, s: BankSettings): (t: Option<Tier>)
    ensures t.Some? ==> (t.value.isPremium <==> balance >= OrZero(s.premiumRequirement))
    ensures t.Some? && t.value.isPremium ==> s.premiumRate == Some(t.value.interestRate)
    ensures t.Some? && !t.value.isPremium ==> s.normalRate == Some(t.value.interestRate)
    ensures t.None? <==> (if balance >= OrZero(s.premiumRequirement) then s.premiumRate.None? else s.normalRate.None?)
  {
    var isPremium := balance >= OrZero(s.premiumRequirement);
    var rate := if isPremium then s.premiumRate else s.normalRate;
    if rate.None? then None else Some(Tier(isPremium, rate.value))
  }

  /** A larger balance never loses premium status. */
  lemma PremiumIsMonotone(b1: real, b2: real, s: BankSettings)
    requires b1 <= b2
    requires Classify(b1, s).Some? && Classify(b2, s).Some?
    ensures Classify(b1, s).value.isPremium ==> Classify(b2, s).value.isPremium
  {
  }

  /** With no settings row, balances below one billion earn the normal 0.05
      and the rest the premium 0.06. */
  lemma DefaultTiers(balance: real)
    ensures var t := Classify(balance, BankSettingsOrDefault(None));
            t.Some? &&
            (balance < 1000000000.0 ==> t.value == Tier(false, 0.05)) &&
            (balance >= 1000000000.0 ==> t.value == Tier(true, 0.06))
  {
  }

  function Annotated(row: PlayerRow, s: BankSettings): PlayerRow {
    row.(tier := Classify(row.balance, s))
  }

  /** The loop of the player list over the fetched rows, updating each row in
      place; it stops with an error at the first row whose rate is NULL. */
  method AnnotatePlayers(rows: array<PlayerRow>, s: BankSettings) returns (ok: bool)
    modifies rows
    ensures ok <==> forall i :: 0 <= i < rows.Length ==> Classify(old(rows[i]).balance, s).Some?
    ensures ok ==> forall i :: 0 <= i < rows.Length ==> rows[i] == Annotated(old(rows[i]), s)
  {
    var i := 0;
    while i < rows.Length
      invariant 0 <= i <= rows.Length
      invariant forall j :: 0 <= j < i ==> Classify(old(rows[j]).balance, s).Some?
      invariant forall j :: 0 <= j < i ==> rows[j] == Annotated(old(rows[j]), s)
      invariant forall j :: i <= j < rows.Length ==> rows[j] == old(rows[j])
    {
      var t := Classify(rows[i].balance, s);
      if t.None? {
        return false;
      }
      rows[i] := rows[i].(tier := t);
      i := i + 1;
    }
    return true;
  }

  /** The classification of a whole page, as a value: None when some row fails. */
  function AnnotateAll(rows: seq<PlayerRow>, s: BankSettings): (r: Option<seq<PlayerRow>>)
    ensures r.Some? <==> forall i :: 0 <= i < |rows| ==> Classify(rows[i].balance, s).Some?
    ensures r.Some? ==> |r.value| == |rows| && forall i :: 0 <= i < |rows| ==> r.value[i] == Annotated(rows[i], s)
  {
    if |rows| == 0 then Some([])
    else
      var t := Classify(rows[0].balance, s);
      var rest := AnnotateAll(rows[1..], s);
      if t.None? then None
      else if rest.None? then None
      else Some([Annotated(rows[0], s)] + rest.value)
  }

  /** Some active account of an existing player with this ign holds this balance. */
  ghost predicate ActiveHolding(ign: string, balance: real, players: seq<Player>, accounts: seq<Account>) {
    exists a, p :: a in accounts && a.status == Active && p in players && p.id == a.playerId &&
                   ign == p.ign && balance == a.balance
  }

  /** `players p JOIN accounts a ON a.player_id = p.id AND a.status='active'`,
      one row per active account whose player exists, before ordering. */
  function ActivePlayerRows(players: seq<Player>, accounts: seq<Account>): (rows: seq<PlayerRow>)
    ensures |rows| <= |accounts|
    ensures forall r :: r in rows ==> r.tier.None? && ActiveHolding(r.ign, r.balance, players, accounts)
  {
    if |accounts| == 0 then []
    else
      HoldingRow(players, accounts[0]) + ActivePlayerRows(players, accounts[1..])
  }

  /** The row an account contributes to the join: one row when it is active
      and its player exists, none otherwise. */
  function HoldingRow(players: seq<Player>, a: Account): seq<PlayerRow> {
    if a.status == Active && FindPlayerById(players, a.playerId).Some?
    then [PlayerRow(FindPlayerById(players, a.playerId).value.ign, a.balance, None)]
    else []
  }

  /** One row per joined account, in table order: a newly inserted account
      adds its own row, if any, after the rows already there. */
  lemma {:induction false} ActivePlayerRowsAppend(players: seq<Player>, accounts: seq<Account>, a: Account)
    ensures ActivePlayerRows(players, accounts + [a]) ==
            ActivePlayerRows(players, accounts) + HoldingRow(players, a)
  {
    if |accounts| == 0 {
      assert accounts + [a] == [a];
    } else {
      assert (accounts + [a])[1..] == accounts[1..] + [a];
      ActivePlayerRowsAppend(players, accounts[1..], a);
    }
  }

  /** Every active account whose player exists is listed: its row is among
      the query's rows. */
  lemma {:induction false} ActivePlayerRowsComplete(players: seq<Player>, accounts: seq<Account>, a: Account)
    requires a in accounts && a.status == Active && FindPlayerById(players, a.playerId).Some?
    ensures PlayerRow(FindPlayerById(players, a.playerId).value.ign, a.balance, None)
              in ActivePlayerRows(players, accounts)
  {
    var rest := ActivePlayerRows(players, accounts[1..]);
    if a == accounts[0] {
      assert ActivePlayerRows(players, accounts) ==
             [PlayerRow(FindPlayerById(players, a.playerId).value.ign, a.balance, None)] + rest;
    } else {
      var k :| 0 <= k < |accounts| && accounts[k] == a;
      assert accounts[1..][k - 1] == a;
      ActivePlayerRowsComplete(players, accounts[1..], a);
      assert forall x :: x in rest ==> x in ActivePlayerRows(players, accounts);
    }
  }

  /** Ordering by balance drops no row: every active account whose player
      exists is in the ordered listing the pages are cut from. */
  lemma {:induction false} OrderedListingComplete(players: seq<Player>, accounts: seq<Account>, a: Account)
    requires a in accounts && a.status == Active && FindPlayerById(players, a.playerId).Some?
    ensures PlayerRow(FindPlayerById(players, a.playerId).value.ign, a.balance, None)
              in SortByBalanceDesc(ActivePlayerRows(players, accounts))
  {
    var all := ActivePlayerRows(players, accounts);
    ActivePlayerRowsComplete(players, accounts, a);
    assert PlayerRow(FindPlayerById(players, a.playerId).value.ign, a.balance, None) in multiset(all);
  }

  ghost predicate SortedByBalanceDesc(rows: seq<PlayerRow>) {
    forall i, j :: 0 <= i < j < |rows| ==> rows[i].balance >= rows[j].balance
  }

  function InsertByBalance(x: PlayerRow, rows: seq<PlayerRow>): (r: seq<PlayerRow>)
    requires SortedByBalanceDesc(rows)
    ensures SortedByBalanceDesc(r)
    ensures multiset(r) == multiset(rows) + multiset{x}
    ensures |r| == |rows| + 1
    ensures r[0] == x || (|rows| > 0 && r[0] == rows[0])
  {
    if |rows| == 0 then [x]
    else if x.balance >= rows[0].balance then
      ConsKeepsSorted(x, rows);
      [x] + rows
    else
      var rest := InsertByBalance(x, rows[1..]);
      assert rows == [rows[0]] + rows[1..];
      assert multiset([rows[0]] + rest) == multiset{rows[0]} + multiset(rest);
      assert rows[0].balance >= rest[0].balance by {
        assert rest[0] == x || rest[0] == rows[1..][0];
      }
      ConsKeepsSorted(rows[0], rest);
      [rows[0]] + rest
  }

  /** A row no smaller than the head of a sorted listing can go in front of it. */
  lemma {:induction false} ConsKeepsSorted(x: PlayerRow, rows: seq<PlayerRow>)
    requires SortedByBalanceDesc(rows)
    requires |rows| > 0 ==> x.balance >= rows[0].balance
    ensures SortedByBalanceDesc([x] + rows)
  {
    var r := [x] + rows;
    forall i, j | 0 <= i < j < |r|
      ensures r[i].balance >= r[j].balance
    {
      assert r[j] == rows[j - 1];
      if i > 0 {
        assert r[i] == rows[i - 1];
      }
    }
  }

  /** `ORDER BY a.balance DESC`; the order among equal balances is left
      unspecified by the query, and this model keeps one of them. */
  function SortByBalanceDesc(rows: seq<PlayerRow>): (r: seq<PlayerRow>)
    ensures SortedByBalanceDesc(r)
    ensures multiset(r) == multiset(rows)
    ensures |r| == |rows|
  {
    if |rows| == 0 then []
    else
      assert rows == [rows[0]] + rows[1..];
      InsertByBalance(rows[0], SortByBalanceDesc(rows[1..]))
  }

  /** The player-list handler (no search text): active players by balance,
      highest first, paged, then classified. */
  function PlayersResponse(players: seq<Player>, accounts: seq<Account>, settings: Option<BankSettings>,
                           limit: Option<int>, offset: Option<int>): Result<seq<PlayerRow>>
  {
    match Page(SortByBalanceDesc(ActivePlayerRows(players, accounts)), ListLimit(limit), OffsetOf(offset))
    case Err(e) => Err(e)
    case Ok(page) =>
      match AnnotateAll(page, BankSettingsOrDefault(settings))
      case None => Err(Internal)
      case Some(rows) => Ok(rows)
  }

  /** The rows of a page are rows of the listing it was cut from. */
  lemma {:induction false} PageRowsFromListing<T>(rows: seq<T>, limit: int, offset: int)
    requires Page(rows, limit, offset).Ok?
    ensures forall x :: x in Page(rows, limit, offset).value ==> x in rows
  {
    var page := Page(rows, limit, offset).value;
    forall x | x in page
      ensures x in rows
    {
      var i :| 0 <= i < |page| && page[i] == x;
      assert rows[offset + i] == x;
    }
  }

  /** A page cut from a listing sorted by balance is sorted by balance. */
  lemma {:induction false} PageKeepsOrder(rows: seq<PlayerRow>, limit: int, offset: int)
    requires SortedByBalanceDesc(rows)
    requires Page(rows, limit, offset).Ok?
    ensures SortedByBalanceDesc(Page(rows, limit, offset).value)
  {
    var page := Page(rows, limit, offset).value;
    forall i, j | 0 <= i < j < |page|
      ensures page[i].balance >= page[j].balance
    {
      assert page[i] == rows[offset + i] && page[j] == rows[offset + j];
    }
  }

  /** What the player list promises: at most 1000 rows, ordered by balance
      from highest to lowest, each an active account of an existing player,
      each premium exactly when its balance reaches the requirement, and each
      paid the premium or the normal rate accordingly. */
  lemma {:induction false} PlayersListed(players: seq<Player>, accounts: seq<Account>, settings: Option<BankSettings>,
                                         limit: Option<int>, offset: Option<int>)
    requires PlayersResponse(players, accounts, settings, limit, offset).Ok?
    ensures var rows := PlayersResponse(players, accounts, settings, limit, offset).value;
            var s := BankSettingsOrDefault(settings);
            |rows| <= 1000 &&
            SortedByBalanceDesc(rows) &&
            (forall r :: r in rows ==>
               ActiveHolding(r.ign, r.balance, players, accounts) &&
               r.tier.Some? && (r.tier.value.isPremium <==> r.balance >= OrZero(s.premiumRequirement)) &&
               (r.tier.value.isPremium ==> s.premiumRate == Some(r.tier.value.interestRate)) &&
               (!r.tier.value.isPremium ==> s.normalRate == Some(r.tier.value.interestRate)))
  {
    var all := ActivePlayerRows(players, accounts);
    var sorted := SortByBalanceDesc(all);
    var page := Page(sorted, ListLimit(limit), OffsetOf(offset)).value;
    var s := BankSettingsOrDefault(settings);
    var rows := AnnotateAll(page, s).value;
    assert rows == PlayersResponse(players, accounts, settings, limit, offset).value;
    PageKeepsOrder(sorted, ListLimit(limit), OffsetOf(offset));
    PageRowsFromListing(sorted, ListLimit(limit), OffsetOf(offset));
    forall i, j | 0 <= i < j < |rows|
      ensures rows[i].balance >= rows[j].balance
    {
      assert rows[i].balance == page[i].balance && rows[j].balance == page[j].balance;
    }
    forall r | r in rows
      ensures ActiveHolding(r.ign, r.balance, players, accounts) &&
              r.tier.Some? && (r.tier.value.isPremium <==> r.balance >= OrZero(s.premiumRequirement)) &&
              (r.tier.value.isPremium ==> s.premiumRate == Some(r.tier.value.interestRate)) &&
              (!r.tier.value.isPremium ==> s.normalRate == Some(r.tier.value.interestRate))
    {
      var i :| 0 <= i < |rows| && rows[i] == r;
      assert page[i] in page;
      assert page[i] in multiset(sorted);
      assert page[i] in all;
    }
  }

  /** The classification of a fetched page as it runs: the rows copied into
      an array and updated in place by the loop. */
  method ClassifyPage(page: seq<PlayerRow>, s: BankSettings) returns (r: Option<seq<PlayerRow>>)
    ensures r == AnnotateAll(page, s)
  {
    var rows := new PlayerRow[|page|](i requires 0 <= i < |page| => page[i]);
    assert rows[..] == page;
    var ok := AnnotatePlayers(rows, s);
    if !ok {
      return None;
    }
    assert rows[..] == AnnotateAll(page, s).value;
    return Some(rows[..]);
  }

  /** The player-list handler as it runs: the query, then the in-place loop
      over the fetched rows. */
  method ListPlayers(players: seq<Player>, accounts: seq<Account>, settings: Option<BankSettings>,
                     limit: Option<int>, offset: Option<int>) returns (r: Result<seq<PlayerRow>>)
    ensures r == PlayersResponse(players, accounts, settings, limit, offset)
  {
    var fetched := Page(SortByBalanceDesc(ActivePlayerRows(players, accounts)), ListLimit(limit), OffsetOf(offset));
    if fetched.Err? {
      return Err(fetched.error);
    }
    var classified := ClassifyPage(fetched.value, BankSettingsOrDefault(settings));
    if classified.None? {
      return Err(Internal);
    }
    return Ok(classified.value);
  }

  // ------------------------------------------------------- transactions

  /** A row of the transaction list: the transaction, the player's ign and
      the derived balance before it. */
  datatype TxnView = TxnView(id: nat, accountId: nat, txnType: TxnType, amount: real,
                             effectiveDelta: real, balanceAfter: real, beforeBalance: real,
                             feePct: Option<real>, note: string, ign: string)

  /** `(t.balance_after - t.effective_delta) AS before_balance` (NULL when
      either is NULL), then every money column read with NULL as 0. */
  function ViewTxn(t: Txn, ign: string): (v: TxnView)
    ensures v.id == t.id && v.accountId == t.accountId && v.txnType == t.txnType && v.note == t.note
    ensures v.amount == OrZero(Some(t.amount)) && v.feePct == t.feePct && v.ign == ign
    ensures v.effectiveDelta == OrZero(t.effectiveDelta) && v.balanceAfter == OrZero(t.balanceAfter)
  {
    var before := if t.balanceAfter.Some? && t.effectiveDelta.Some?
                  then Some(t.balanceAfter.value - t.effectiveDelta.value) else None;
    TxnView(t.id, t.accountId, t.txnType, t.amount, OrZero(t.effectiveDelta), OrZero(t.balanceAfter),
            OrZero(before), t.feePct, t.note, ign)
  }

  /** The balance before a listed transaction is its stored balance after
      minus its stored delta when the database filled in both columns, so
      before plus delta is after; when either column is NULL the SQL
      difference is NULL and the balance before reads as 0. */
  lemma {:induction false} BeforeBalanceDerivation(t: Txn, ign: string)
    ensures t.balanceAfter.Some? && t.effectiveDelta.Some? ==>
              ViewTxn(t, ign).beforeBalance == t.balanceAfter.value - t.effectiveDelta.value
    ensures t.balanceAfter.None? || t.effectiveDelta.None? ==> ViewTxn(t, ign).beforeBalance == 0.0
    ensures t.balanceAfter.Some? && t.effectiveDelta.Some? ==>
              ViewTxn(t, ign).beforeBalance + ViewTxn(t, ign).effectiveDelta == ViewTxn(t, ign).balanceAfter
    ensures t.balanceAfter.None? && t.effectiveDelta.None? ==>
              ViewTxn(t, ign).beforeBalance == 0.0 && ViewTxn(t, ign).effectiveDelta == 0.0 &&
              ViewTxn(t, ign).balanceAfter == 0.0
    ensures t.balanceAfter.Some? && t.effectiveDelta.None? ==> ViewTxn(t, ign).beforeBalance == 0.0
  {
  }

  function TxnIds(txns: seq<Txn>): set<nat> {
    set t | t in txns :: t.id
  }

  /** The ign of the player owning a transaction's account, if both rows exist (the inner joins). */
  function OwnerIgn(t: Txn, accounts: seq<Account>, players: seq<Player>): Option<string> {
    match FindAccountById(accounts, t.accountId)
    case None => None
    case Some(a) =>
      match FindPlayerById(players, a.playerId)
      case None => None
      case Some(p) => Some(p.ign)
  }

  /** `transactions t JOIN accounts a ... JOIN players p ... ORDER BY t.id DESC`:
      the table is kept in id order, so the rows come from its end. */
  function TxnRowsDesc(txns: seq<Txn>, accounts: seq<Account>, players: seq<Player>): (rows: seq<TxnView>)
    ensures |rows| <= |txns|
    ensures forall v :: v in rows ==> v.id in TxnIds(txns)
    ensures forall v :: v in rows ==>
              exists t :: t in txns && OwnerIgn(t, accounts, players).Some? &&
                          v == ViewTxn(t, OwnerIgn(t, accounts, players).value)
  {
    if |txns| == 0 then []
    else
      var t := txns[|txns| - 1];
      var rest := TxnRowsDesc(txns[..|txns| - 1], accounts, players);
      assert forall u :: u in txns[..|txns| - 1] ==> u in txns;
      TxnRow(t, accounts, players) + rest
  }

  /** The row a transaction contributes to the list: one row when its
      account and that account's player exist, none otherwise. */
  function TxnRow(t: Txn, accounts: seq<Account>, players: seq<Player>): seq<TxnView> {
    match OwnerIgn(t, accounts, players)
    case None => []
    case Some(ign) => [ViewTxn(t, ign)]
  }

  /** One row per joined transaction: a newly inserted transaction adds its
      own row, if any, at the head of the list and leaves the rest as it was. */
  lemma {:induction false} TxnRowsAppend(txns: seq<Txn>, accounts: seq<Account>, players: seq<Player>, t: Txn)
    ensures TxnRowsDesc(txns + [t], accounts, players) ==
            TxnRow(t, accounts, players) + TxnRowsDesc(txns, accounts, players)
  {
    assert (txns + [t])[..|txns|] == txns;
  }

  ghost predicate TxnIdsDecreasing(rows: seq<TxnView>) {
    forall i, j :: 0 <= i < j < |rows| ==> rows[i].id > rows[j].id
  }

  lemma {:induction false} ConsKeepsDecreasing(v: TxnView, rest: seq<TxnView>)
    requires TxnIdsDecreasing(rest)
    requires forall w :: w in rest ==> w.id < v.id
    ensures TxnIdsDecreasing([v] + rest)
  {
    var rows := [v] + rest;
    forall i, j | 0 <= i < j < |rows|
      ensures rows[i].id > rows[j].id
    {
      assert rows[j] == rest[j - 1];
      if i > 0 {
        assert rows[i] == rest[i - 1];
      } else {
        assert rest[j - 1] in rest;
      }
    }
  }

  /** With ids in insertion order, the listed ids strictly decrease. */
  lemma {:induction false} TxnRowsDescending(txns: seq<Txn>, accounts: seq<Account>, players: seq<Player>)
    requires TxnIdsIncreasing(txns)
    ensures TxnIdsDecreasing(TxnRowsDesc(txns, accounts, players))
  {
    if |txns| > 0 {
      var t := txns[|txns| - 1];
      var init := txns[..|txns| - 1];
      var rest := TxnRowsDesc(init, accounts, players);
      assert TxnIdsIncreasing(init);
      TxnRowsDescending(init, accounts, players);
      forall v | v in rest
        ensures v.id < t.id
      {
        var u :| u in init && u.id == v.id;
        var k :| 0 <= k < |init| && init[k] == u;
        assert txns[k] == u;
      }
      var owner := OwnerIgn(t, accounts, players);
      if owner.Some? {
        assert TxnRowsDesc(txns, accounts, players) == [ViewTxn(t, owner.value)] + rest;
        ConsKeepsDecreasing(ViewTxn(t, owner.value), rest);
      } else {
        assert TxnRowsDesc(txns, accounts, players) == rest;
      }
    }
  }

  /** A page cut from a listing with decreasing ids has decreasing ids. */
  lemma {:induction false} PageKeepsIdOrder(rows: seq<TxnView>, limit: int, offset: int)
    requires TxnIdsDecreasing(rows)
    requires Page(rows, limit, offset).Ok?
    ensures TxnIdsDecreasing(Page(rows, limit, offset).value)
  {
    var page := Page(rows, limit, offset).value;
    forall i, j | 0 <= i < j < |page|
      ensures page[i].id > page[j].id
    {
      assert page[i] == rows[offset + i] && page[j] == rows[offset + j];
    }
  }

  /** Every transaction whose account and player exist is listed. */
  lemma {:induction false} TxnRowsComplete(txns: seq<Txn>, accounts: seq<Account>, players: seq<Player>, t: Txn)
    requires t in txns && OwnerIgn(t, accounts, players).Some?
    ensures ViewTxn(t, OwnerIgn(t, accounts, players).value) in TxnRowsDesc(txns, accounts, players)
  {
    if t != txns[|txns| - 1] {
      var k :| 0 <= k < |txns| && txns[k] == t;
      assert txns[..|txns| - 1][k] == t;
      TxnRowsComplete(txns[..|txns| - 1], accounts, players, t);
    }
  }

  /** The transaction-list handler without a search text. */
  function ListTransactions(txns: seq<Txn>, accounts: seq<Account>, players: seq<Player>,
                            limit: Option<int>, offset: Option<int>): (r: Result<seq<TxnView>>)
    ensures r.Err? <==> ListLimit(limit) < 0 || OffsetOf(offset) < 0
    ensures r.Ok? ==> |r.value| <= 1000 && forall v :: v in r.value ==> v.id in TxnIds(txns)
    ensures r.Ok? && TxnIdsIncreasing(txns) ==> TxnIdsDecreasing(r.value)
  {
    var r := Page(TxnRowsDesc(txns, accounts, players), ListLimit(limit), OffsetOf(offset));
    assert r.Ok? && TxnIdsIncreasing(txns) ==> TxnIdsDecreasing(r.value) by {
      if r.Ok? && TxnIdsIncreasing(txns) {
        TxnRowsDescending(txns, accounts, players);
        PageKeepsIdOrder(TxnRowsDesc(txns, accounts, players), ListLimit(limit), OffsetOf(offset));
      }
    }
    assert r.Ok? ==> forall v :: v in r.value ==> v in TxnRowsDesc(txns, accounts, players) by {
      if r.Ok? {
        forall v | v in r.value ensures v in TxnRowsDesc(txns, accounts, players) {
          var i :| 0 <= i < |r.value| && r.value[i] == v;
        }
      }
    }
    r
  }

  // -------------------------------------------------------------- races

  datatype RaceStatus = Finished | Live | Scheduled

  /** The `CASE` of the race list: finished once `ends_at` has passed, live
      once `starts_at` has passed, scheduled otherwise. */
  function StatusAt(startsAt: Option<int>, endsAt: Option<int>, now: int): (st: RaceStatus)
    ensures st == Finished <==> endsAt.Some? && endsAt.value <= now
    ensures st == Live <==> !(endsAt.Some? && endsAt.value <= now) && startsAt.Some? && startsAt.value <= now
    ensures st == Scheduled <==> !(endsAt.Some? && endsAt.value <= now) && !(startsAt.Some? && startsAt.value <= now)
  {
    if endsAt.Some? && endsAt.value <= now then Finished
    else if startsAt.Some? && startsAt.value <= now && (endsAt.None? || endsAt.value > now) then Live
    else Scheduled
  }

  function StatusRank(st: RaceStatus): nat {
    match st
    case Scheduled => 0
    case Live => 1
    case Finished => 2
  }

  /** As time passes a race only moves forward: scheduled, live, finished. */
  lemma StatusOnlyAdvances(startsAt: Option<int>, endsAt: Option<int>, now: int, later: int)
    requires now <= later
    ensures StatusRank(StatusAt(startsAt, endsAt, now)) <= StatusRank(StatusAt(startsAt, endsAt, later))
  {
  }

  /** A race whose `ends_at` is NULL is never listed as finished. */
  lemma {:induction false} OpenRaceNotFinished(race: Race, now: int)
    requires race.endsAt.None?
    ensures StatusAt(race.startsAt, race.endsAt, now) != Finished
    ensures race.startsAt.Some? && race.startsAt.value <= now <==> StatusAt(race.startsAt, race.endsAt, now) == Live
  {
  }

  /** A row of the race list. */
  datatype RaceRow = RaceRow(id: nat, name: string, prizePool: real, scheduledAt: Option<int>,
                             endsAt: Option<int>, status: RaceStatus, jockeyCount: nat, jockeys: seq<string>,
                             winner1: Option<string>, winner2: Option<string>, winner3: Option<string>)

  function RaceRowOf(race: Race, players: seq<Player>, jockeys: seq<Jockey>, now: int): RaceRow {
    RaceRow(race.id, DisplayName(race), race.prizePool, race.startsAt, race.endsAt,
            StatusAt(race.startsAt, race.endsAt, now), JockeyCount(jockeys, race.id),
            JockeyNames(jockeys, players, race.id),
            WinnerName(players, race.winner1), WinnerName(players, race.winner2), WinnerName(players, race.winner3))
  }

  /** The race-list handler: every race, `ORDER BY r.id DESC`, with its status at `now`. */
  function ListRaces(races: seq<Race>, players: seq<Player>, jockeys: seq<Jockey>, now: int): (rows: seq<RaceRow>)
    ensures |rows| == |races|
    ensures forall i :: 0 <= i < |races| ==> rows[i] == RaceRowOf(races[|races| - 1 - i], players, jockeys, now)
  {
    if |races| == 0 then []
    else
      var rest := ListRaces(races[..|races| - 1], players, jockeys, now);
      [RaceRowOf(races[|races| - 1], players, jockeys, now)] + rest
  }

  /** With ids in insertion order, the race list's ids strictly decrease, and
      its first row is the race the race-info handler shows. */
  lemma {:induction false} RaceListOrder(races: seq<Race>, players: seq<Player>, jockeys: seq<Jockey>,
                                         settings: Option<RaceSettings>, now: int)
    requires RaceIdsIncreasing(races)
    ensures var rows := ListRaces(races, players, jockeys, now);
            forall i, j :: 0 <= i < j < |rows| ==> rows[i].id > rows[j].id
    ensures var rows := ListRaces(races, players, jockeys, now);
            var info := RaceInfo(races, players, jockeys, settings);
            info.Ok? ==> rows[0].id == info.value.raceId && rows[0].jockeyCount == info.value.jockeyCount &&
                         rows[0].jockeys == info.value.jockeys && rows[0].prizePool == info.value.prizePool
  {
    var rows := ListRaces(races, players, jockeys, now);
    forall i, j | 0 <= i < j < |rows|
      ensures rows[i].id > rows[j].id
    {
      assert rows[i].id == races[|races| - 1 - i].id;
      assert rows[j].id == races[|races| - 1 - j].id;
    }
  }
}
