/** The bank's database as one object, and the handlers that write to it:
    account provisioning and the race lifecycle (create, enrol, set a
    winner, end). Each handler either returns an error having written
    nothing, or commits all of its writes. */
module Bank {
  import opened Ledger
  import opened Races

  // ---------------------------------------------------- table invariants

  ghost predicate RaceExists(races: seq<Race>, id: nat) {
    exists r :: r in races && r.id == id
  }

  /** Every transaction belongs to an existing account. */
  ghost predicate TxnsHaveAccounts(txns: seq<Txn>, accounts: seq<Account>) {
    forall t :: t in txns ==> exists a :: a in accounts && a.id == t.accountId
  }

  /** Jockey rows name existing races and players, and no pair is enrolled twice. */
  ghost predicate JockeysValid(jockeys: seq<Jockey>, races: seq<Race>, players: seq<Player>) {
    (forall j :: j in jockeys ==> RaceExists(races, j.raceId) && PlayerExists(players, j.playerId)) &&
    (forall i, k :: 0 <= i < k < |jockeys| ==> jockeys[i] != jockeys[k])
  }

  /** No player holds two winner slots of the same race. */
  ghost predicate WinnersDistinct(race: Race) {
    forall p: Position, q: Position :: p < q && race.Winner(p).Some? ==> race.Winner(p) != race.Winner(q)
  }

  /** Every winner of a race is one of its jockeys, no race has a player in
      two slots, and every ended race has its winner 1. */
  ghost predicate WinnersValid(races: seq<Race>, jockeys: seq<Jockey>) {
    (forall i, p: Position :: 0 <= i < |races| && races[i].Winner(p).Some? ==>
       Jockey(races[i].id, races[i].Winner(p).value) in jockeys) &&
    (forall i :: 0 <= i < |races| ==> WinnersDistinct(races[i])) &&
    (forall i :: 0 <= i < |races| && races[i].endsAt.Some? ==> SlotSet(races[i].winner1))
  }

  ghost predicate TablesValid(players: seq<Player>, accounts: seq<Account>, txns: seq<Txn>,
                              races: seq<Race>, jockeys: seq<Jockey>) {
    LedgerValid(players, accounts) &&
    TxnIdsIncreasing(txns) && TxnsHaveAccounts(txns, accounts) &&
    RaceIdsIncreasing(races) &&
    JockeysValid(jockeys, races, players) &&
    WinnersValid(races, jockeys)
  }

  // ---------------------------------- each handler keeps the invariants

  lemma {:induction false} AppendTxnKeepsTxnsValid(txns: seq<Txn>, accounts: seq<Account>, t: Txn)
    requires TxnIdsIncreasing(txns) && TxnsHaveAccounts(txns, accounts)
    requires forall u :: u in txns ==> u.id < t.id
    requires exists a :: a in accounts && a.id == t.accountId
    ensures TxnIdsIncreasing(txns + [t]) && TxnsHaveAccounts(txns + [t], accounts)
  {
    var txns' := txns + [t];
    assert forall i :: 0 <= i < |txns| ==> txns[i] in txns && txns'[i] == txns[i];
  }

  /** Provisioning an account keeps every invariant. */
  lemma {:induction false} ProvisionKeepsTablesValid(players: seq<Player>, accounts: seq<Account>, txns: seq<Txn>,
                                                     races: seq<Race>, jockeys: seq<Jockey>, ign: string)
    requires TablesValid(players, accounts, txns, races, jockeys)
    ensures var r := Provision(players, accounts, ign);
            TablesValid(r.players, r.accounts, txns, races, jockeys)
  {
    var r := Provision(players, accounts, ign);
    ProvisionKeepsLedgerValid(players, accounts, ign);
    forall t | t in txns
      ensures exists a :: a in r.accounts && a.id == t.accountId
    {
      var a :| a in accounts && a.id == t.accountId;
      assert a in r.accounts;
    }
    forall j | j in jockeys
      ensures PlayerExists(r.players, j.playerId)
    {
      var p :| p in players && p.id == j.playerId;
      assert p in r.players;
    }
  }

  /** Creating a race keeps every invariant. */
  lemma {:induction false} CreateKeepsTablesValid(players: seq<Player>, accounts: seq<Account>, txns: seq<Txn>,
                                                  races: seq<Race>, jockeys: seq<Jockey>,
                                                  name: Option<string>, at: int, today: string)
    requires TablesValid(players, accounts, txns, races, jockeys)
    ensures TablesValid(players, accounts, txns, races + [NewRace(races, name, at, today)], jockeys)
  {
    var races' := races + [NewRace(races, name, at, today)];
    assert forall i :: 0 <= i < |races| ==> races[i] in races && races'[i] == races[i];
    forall j | j in jockeys
      ensures RaceExists(races', j.raceId)
    {
      var r :| r in races && r.id == j.raceId;
      assert r in races';
    }
  }

  /** Enrolling keeps the race and jockey invariants: the new jockey row is
      fresh and only the pool of the active race changes. */
  lemma {:induction false} EnrollKeepsRaceTables(players: seq<Player>, races: seq<Race>, jockeys: seq<Jockey>,
                                                 plan: EnrollPlan)
    requires plan.raceIndex < |races| && plan.player in players
    requires Jockey(races[plan.raceIndex].id, plan.player.id) !in jockeys
    requires RaceIdsIncreasing(races) && JockeysValid(jockeys, races, players) && WinnersValid(races, jockeys)
    ensures var races' := EnrolledRaces(races, plan);
            var jockeys' := jockeys + [Jockey(races[plan.raceIndex].id, plan.player.id)];
            RaceIdsIncreasing(races') && JockeysValid(jockeys', races', players) && WinnersValid(races', jockeys')
  {
    var k := plan.raceIndex;
    var races' := EnrolledRaces(races, plan);
    var jockeys' := jockeys + [Jockey(races[k].id, plan.player.id)];
    assert races'[k] in races';
    forall x | x in jockeys
      ensures RaceExists(races', x.raceId)
    {
      var r :| r in races && r.id == x.raceId;
      var i :| 0 <= i < |races| && races[i] == r;
      assert races'[i] in races';
    }
    assert forall i :: 0 <= i < |jockeys| ==> jockeys[i] in jockeys && jockeys'[i] == jockeys[i];
    assert forall x :: x in jockeys ==> x in jockeys';
    forall i | 0 <= i < |races'|
      ensures WinnersDistinct(races'[i])
    {
      assert forall q: Position :: races'[i].Winner(q) == races[i].Winner(q);
    }
  }

  /** Enrolling keeps every invariant. */
  lemma {:induction false} EnrollKeepsTablesValid(players: seq<Player>, accounts: seq<Account>, txns: seq<Txn>,
                                                  races: seq<Race>, jockeys: seq<Jockey>,
                                                  settings: Option<RaceSettings>, ign: string, plan: EnrollPlan)
    requires TablesValid(players, accounts, txns, races, jockeys)
    requires CheckEnroll(ign, races, players, jockeys, accounts, settings) == Ok(plan)
    ensures TablesValid(players, accounts, txns + [EntryFeeTxn(txns, races, plan)], EnrolledRaces(races, plan),
                        jockeys + [Jockey(races[plan.raceIndex].id, plan.player.id)])
  {
    AppendTxnKeepsTxnsValid(txns, accounts, EntryFeeTxn(txns, races, plan));
    EnrollKeepsRaceTables(players, races, jockeys, plan);
  }

  /** Setting a winner keeps every invariant. */
  lemma {:induction false} SetWinnerKeepsTablesValid(players: seq<Player>, accounts: seq<Account>, txns: seq<Txn>,
                                                      races: seq<Race>, jockeys: seq<Jockey>,
                                                      settings: Option<RaceSettings>, ign: string, pos: Position,
                                                      plan: WinnerPlan)
    requires TablesValid(players, accounts, txns, races, jockeys)
    requires CheckSetWinner(ign, pos, races, players, jockeys, accounts, settings) == Ok(plan)
    ensures TablesValid(players, accounts, txns + [PrizeTxn(txns, races, pos, plan)],
                        WinnerRaces(races, pos, plan), jockeys)
  {
    var k := plan.raceIndex;
    var races' := WinnerRaces(races, pos, plan);
    var pid := plan.player.id;
    AppendTxnKeepsTxnsValid(txns, accounts, PrizeTxn(txns, races, pos, plan));
    assert races'[k] == races[k].WithWinner(pos, pid);
    forall x | x in jockeys
      ensures RaceExists(races', x.raceId)
    {
      var r :| r in races && r.id == x.raceId;
      var i :| 0 <= i < |races| && races[i] == r;
      assert races'[i] in races';
    }
    forall i, p: Position | 0 <= i < |races'| && races'[i].Winner(p).Some?
      ensures Jockey(races'[i].id, races'[i].Winner(p).value) in jockeys
    {
      if i == k && p == pos {
        assert races'[i].Winner(p) == Some(pid);
      } else if i == k {
        assert races'[i].Winner(p) == races[i].Winner(p);
      }
    }
    forall i | 0 <= i < |races'|
      ensures WinnersDistinct(races'[i])
    {
      if i == k {
        assert WinnersDistinct(races[k]);
      }
    }
  }

  /** Ending a race keeps every invariant. */
  lemma {:induction false} EndKeepsTablesValid(players: seq<Player>, accounts: seq<Account>, txns: seq<Txn>,
                                               races: seq<Race>, jockeys: seq<Jockey>, now: int)
    requires TablesValid(players, accounts, txns, races, jockeys)
    requires CheckEndRace(races).Ok?
    ensures var k := CheckEndRace(races).value;
            TablesValid(players, accounts, txns, races[k := races[k].(endsAt := Some(now))], jockeys)
  {
    var k := CheckEndRace(races).value;
    var races' := races[k := races[k].(endsAt := Some(now))];
    forall i, p: Position | 0 <= i < |races'| && races'[i].Winner(p).Some?
      ensures Jockey(races'[i].id, races'[i].Winner(p).value) in jockeys
    {
      assert races'[i].Winner(p) == races[i].Winner(p);
    }
    forall x | x in jockeys
      ensures RaceExists(races', x.raceId)
    {
      var r :| r in races && r.id == x.raceId;
      var i :| 0 <= i < |races| && races[i] == r;
      assert races'[i] in races';
    }
    forall i | 0 <= i < |races'|
      ensures WinnersDistinct(races'[i])
    {
      assert forall q: Position :: races'[i].Winner(q) == races[i].Winner(q);
    }
  }

  // -------------------------------------------------------------- receipts

  datatype RaceCreated = RaceCreated(raceId: nat, name: string, startsAt: int)

  datatype EnrollReceipt = EnrollReceipt(player: string, raceId: nat, entryFee: real, prizePool: real,
                                         imperialCut: real)

  datatype WinnerReceipt = WinnerReceipt(player: string, position: Position, prize: real, raceId: nat)

  /** The statements of `ensure_player_account` on the two tables: look the
      player up and insert them if missing, then look up their active
      account and insert one if missing. */
  method ProvisionRows(players: seq<Player>, accounts: seq<Account>, ign: string)
    returns (ps: seq<Player>, accs: seq<Account>, accountId: nat)
    ensures Provision(players, accounts, ign) == Provisioned(ps, accs, accountId)
  {
    ps := players;
    var player := FindPlayer(ps, ign);
    var playerId: nat;
    if player.None? {
      playerId := NextPlayerId(ps);
      FindPlayerAppend(ps, Player(playerId, ign), ign);
      ps := ps + [Player(playerId, ign)];
    } else {
      playerId := player.value.id;
    }
    assert FindPlayer(ps, ign).value.id == playerId;
    accs := accounts;
    var account := ActiveAccount(accs, playerId);
    if account.None? {
      accountId := NextAccountId(accs);
      accs := accs + [NewAccount(accs, playerId)];
    } else {
      accountId := account.value.id;
    }
  }

  /** The reads and checks of `enroll_jockey`, in the handler's order, up to
      the point where it starts writing. */
  method EnrollChecks(ign: string, races: seq<Race>, players: seq<Player>, jockeys: seq<Jockey>,
                      accounts: seq<Account>, settings: Option<RaceSettings>) returns (r: Result<EnrollPlan>)
    ensures r == CheckEnroll(ign, races, players, jockeys, accounts, settings)
  {
    if ign == "" {
      return Err(PlayerNameRequired);
    }
    var active := ActiveRaceIndex(races);
    if active.None? {
      return Err(NoActiveRace);
    }
    var k := active.value;
    var player := FindPlayer(players, ign);
    if player.None? {
      return Err(PlayerNotFound(ign));
    }
    var playerId := player.value.id;
    if Jockey(races[k].id, playerId) in jockeys {
      return Err(AlreadyEnrolled(ign));
    }
    var account := ActiveAccount(accounts, playerId);
    if account.None? {
      return Err(NoActiveAccount(ign));
    }
    if settings.None? {
      return Err(Internal);
    }
    var terms := EntryTermsOf(settings.value);
    if account.value.balance < terms.fee {
      return Err(InsufficientBalance(terms.fee, account.value.balance));
    }
    return Ok(EnrollPlan(k, player.value, account.value, terms));
  }

  /** The reads and checks of `_set_winner`, in its order, up to the point
      where it starts writing; the slot check is the loop over slots 1 to 3. */
  method SetWinnerChecks(ign: string, pos: Position, races: seq<Race>, players: seq<Player>,
                         jockeys: seq<Jockey>, accounts: seq<Account>, settings: Option<RaceSettings>)
    returns (r: Result<WinnerPlan>)
    ensures r == CheckSetWinner(ign, pos, races, players, jockeys, accounts, settings)
  {
    var active := ActiveRaceIndex(races);
    if active.None? {
      return Err(NoActiveRace);
    }
    var k := active.value;
    var race := races[k];
    var player := FindPlayer(players, ign);
    if player.None? {
      return Err(PlayerNotFound(ign));
    }
    var playerId := player.value.id;
    if Jockey(race.id, playerId) !in jockeys {
      return Err(NotEnrolled(ign));
    }
    var held := FindOtherSlot(race, playerId, pos);
    if held.Some? {
      return Err(AlreadyWinner(ign, held.value));
    }
    var cuts := CutsOf(settings);
    if cuts.None? {
      return Err(Internal);
    }
    var prize := Prize(race.prizePool, cuts.value, pos);
    var account := ActiveAccount(accounts, playerId);
    if account.None? {
      return Err(NoActiveAccount(ign));
    }
    return Ok(WinnerPlan(k, player.value, account.value, prize));
  }

  // ------------------------------------------------------------- the bank

  class Bank {
    var players: seq<Player>
    var accounts: seq<Account>
    var transactions: seq<Txn>
    var races: seq<Race>
    var jockeys: seq<Jockey>
    /** The `settings` row with id 1, if any. */
    var settings: Option<BankSettings>
    /** The `horse_race_settings` row with id 1, if any. */
    var raceSettings: Option<RaceSettings>

    ghost predicate Valid()
      reads this
    {
      TablesValid(players, accounts, transactions, races, jockeys)
    }

    constructor (players: seq<Player>, accounts: seq<Account>, transactions: seq<Txn>, races: seq<Race>,
                 jockeys: seq<Jockey>, settings: Option<BankSettings>, raceSettings: Option<RaceSettings>)
      requires TablesValid(players, accounts, transactions, races, jockeys)
      ensures Valid()
      ensures this.players == players && this.accounts == accounts && this.transactions == transactions
      ensures this.races == races && this.jockeys == jockeys
      ensures this.settings == settings && this.raceSettings == raceSettings
    {
      this.players := players;
      this.accounts := accounts;
      this.transactions := transactions;
      this.races := races;
      this.jockeys := jockeys;
      this.settings := settings;
      this.raceSettings := raceSettings;
    }

    /** `ensure_player_account`: the id of the player's active account,
        inserting the player and the account only where they are missing. */
    method EnsurePlayerAccount(ign: string) returns (accountId: nat)
      requires Valid()
      modifies this
      ensures Valid()
      ensures var r := Provision(old(players), old(accounts), ign);
              players == r.players && accounts == r.accounts && accountId == r.accountId
      ensures TotalDebt(accounts) == TotalDebt(old(accounts))
      ensures transactions == old(transactions) && races == old(races) && jockeys == old(jockeys)
      ensures settings == old(settings) && raceSettings == old(raceSettings)
    {
      var ps, accs;
      ps, accs, accountId := ProvisionRows(players, accounts, ign);
      ProvisionKeepsTablesValid(players, accounts, transactions, races, jockeys, ign);
      ProvisionKeepsDebt(players, accounts, ign);
      assert TablesValid(ps, accs, transactions, races, jockeys);
      players, accounts := ps, accs;
    }

    /** The create-race handler; `today` is the server's date, used in the default name. */
    method CreateRace(name: Option<string>, startsAt: StartsAtInput, today: string) returns (r: Result<RaceCreated>)
      requires Valid()
      modifies this
      ensures Valid()
      ensures CheckCreateRace(startsAt).Err? ==>
                r == Err(CheckCreateRace(startsAt).error) && races == old(races)
      ensures CheckCreateRace(startsAt).Ok? ==>
                var race := NewRace(old(races), name, startsAt.at, today);
                races == old(races) + [race] &&
                r == Ok(RaceCreated(race.id, race.name.value, startsAt.at)) &&
                ActiveRaceIndex(races) == Some(|races| - 1)
      ensures players == old(players) && accounts == old(accounts) && transactions == old(transactions)
      ensures jockeys == old(jockeys) && settings == old(settings) && raceSettings == old(raceSettings)
    {
      if startsAt.Missing? {
        return Err(StartsAtRequired);
      }
      if startsAt.Unparseable? {
        return Err(InvalidStartsAt);
      }
      var raceName := if name.Some? then name.value else "Imperial Race " + today;
      var race := Race(NextRaceId(races), Some(raceName), Some(raceName), 0.0, Some(startsAt.at), None, None, None, None);
      assert race == NewRace(races, name, startsAt.at, today);
      CreateKeepsTablesValid(players, accounts, transactions, races, jockeys, name, startsAt.at, today);
      NewRaceIsActive(races, name, startsAt.at, today);
      races := races + [race];
      return Ok(RaceCreated(race.id, raceName, startsAt.at));
    }

    /** The enrol handler: charge the entry fee, record the jockey and add
        the fee less the imperial cut to the active race's prize pool. */
    method Enroll(ign: string) returns (r: Result<EnrollReceipt>)
      requires Valid()
      modifies this
      ensures Valid()
      ensures var c := CheckEnroll(ign, old(races), old(players), old(jockeys), old(accounts), old(raceSettings));
              c.Err? ==> r == Err(c.error) && races == old(races) && jockeys == old(jockeys) &&
                         transactions == old(transactions)
      ensures var c := CheckEnroll(ign, old(races), old(players), old(jockeys), old(accounts), old(raceSettings));
              c.Ok? ==>
                var plan := c.value;
                var k := plan.raceIndex;
                races == EnrolledRaces(old(races), plan) &&
                jockeys == old(jockeys) + [Jockey(old(races)[k].id, plan.player.id)] &&
                transactions == old(transactions) + [EntryFeeTxn(old(transactions), old(races), plan)] &&
                r == Ok(EnrollReceipt(ign, old(races)[k].id, plan.terms.fee, races[k].prizePool,
                                      plan.terms.imperialCut))
      ensures players == old(players) && accounts == old(accounts)
      ensures settings == old(settings) && raceSettings == old(raceSettings)
    {
      var checked := EnrollChecks(ign, races, players, jockeys, accounts, raceSettings);
      if checked.Err? {
        return Err(checked.error);
      }
      var plan := checked.value;
      var k := plan.raceIndex;
      var race := races[k];
      var terms := plan.terms;
      var txns' := transactions + [EntryFeeTxn(transactions, races, plan)];
      var jockeys' := jockeys + [Jockey(race.id, plan.player.id)];
      var newPrizePool := race.prizePool + terms.contribution;
      var races' := races[k := race.(prizePool := newPrizePool)];
      assert races' == EnrolledRaces(races, plan);
      EnrollKeepsTablesValid(players, accounts, transactions, races, jockeys, raceSettings, ign, plan);
      transactions, jockeys, races := txns', jockeys', races';
      return Ok(EnrollReceipt(ign, race.id, terms.fee, newPrizePool, terms.imperialCut));
    }

    /** `_set_winner`: record the player in the slot and pay the slot's share
        of the prize pool, leaving the pool as it is. */
    method SetWinner(ign: string, pos: Position) returns (r: Result<WinnerReceipt>)
      requires Valid()
      modifies this
      ensures Valid()
      ensures var c := CheckSetWinner(ign, pos, old(races), old(players), old(jockeys), old(accounts), old(raceSettings));
              c.Err? ==> r == Err(c.error) && races == old(races) && transactions == old(transactions)
      ensures var c := CheckSetWinner(ign, pos, old(races), old(players), old(jockeys), old(accounts), old(raceSettings));
              c.Ok? ==>
                var plan := c.value;
                races == WinnerRaces(old(races), pos, plan) &&
                races[plan.raceIndex] == old(races)[plan.raceIndex].WithWinner(pos, plan.player.id) &&
                transactions == old(transactions) + [PrizeTxn(old(transactions), old(races), pos, plan)] &&
                r == Ok(WinnerReceipt(ign, pos, plan.prize, old(races)[plan.raceIndex].id))
      ensures players == old(players) && accounts == old(accounts) && jockeys == old(jockeys)
      ensures settings == old(settings) && raceSettings == old(raceSettings)
    {
      var checked := SetWinnerChecks(ign, pos, races, players, jockeys, accounts, raceSettings);
      if checked.Err? {
        return Err(checked.error);
      }
      var plan := checked.value;
      var k := plan.raceIndex;
      var race := races[k];
      var races' := races[k := race.WithWinner(pos, plan.player.id)];
      var txns' := transactions + [PrizeTxn(transactions, races, pos, plan)];
      assert races' == WinnerRaces(races, pos, plan);
      SetWinnerKeepsTablesValid(players, accounts, transactions, races, jockeys, raceSettings, ign, pos, plan);
      races, transactions := races', txns';
      return Ok(WinnerReceipt(ign, pos, plan.prize, race.id));
    }

    /** The winner1, winner2 and winner3 routes: a missing name is rejected
        before `_set_winner` runs. */
    method PostWinner(ign: string, pos: Position) returns (r: Result<WinnerReceipt>)
      requires Valid()
      modifies this
      ensures Valid()
      ensures ign == "" ==> r == Err(PlayerNameRequired) && races == old(races) && transactions == old(transactions)
      ensures var c := CheckSetWinner(ign, pos, old(races), old(players), old(jockeys), old(accounts), old(raceSettings));
              ign != "" && c.Err? ==> r == Err(c.error) && races == old(races) && transactions == old(transactions)
      ensures var c := CheckSetWinner(ign, pos, old(races), old(players), old(jockeys), old(accounts), old(raceSettings));
              ign != "" && c.Ok? ==>
                races == WinnerRaces(old(races), pos, c.value) &&
                transactions == old(transactions) + [PrizeTxn(old(transactions), old(races), pos, c.value)] &&
                r == Ok(WinnerReceipt(ign, pos, c.value.prize, old(races)[c.value.raceIndex].id))
      ensures players == old(players) && accounts == old(accounts) && jockeys == old(jockeys)
      ensures settings == old(settings) && raceSettings == old(raceSettings)
    {
      if ign == "" {
        return Err(PlayerNameRequired);
      }
      r := SetWinner(ign, pos);
    }

    /** The end-race handler: close the active race, which needs its winner 1. */
    method EndRace(now: int) returns (r: Result<nat>)
      requires Valid()
      modifies this
      ensures Valid()
      ensures CheckEndRace(old(races)).Err? ==> r == Err(CheckEndRace(old(races)).error) && races == old(races)
      ensures CheckEndRace(old(races)).Ok? ==>
                var k := CheckEndRace(old(races)).value;
                races == old(races)[k := old(races)[k].(endsAt := Some(now))] &&
                r == Ok(old(races)[k].id) &&
                (ActiveRaceIndex(races).Some? ==> ActiveRaceIndex(races).value < k)
      ensures players == old(players) && accounts == old(accounts) && transactions == old(transactions)
      ensures jockeys == old(jockeys) && settings == old(settings) && raceSettings == old(raceSettings)
    {
      var active := ActiveRaceIndex(races);
      if active.None? {
        return Err(NoActiveRace);
      }
      var k := active.value;
      if !SlotSet(races[k].winner1) {
        return Err(Winner1Required);
      }
      EndKeepsTablesValid(players, accounts, transactions, races, jockeys, now);
      EndingActiveRace(races, now);
      races := races[k := races[k].(endsAt := Some(now))];
      return Ok(races[k].id);
    }
  }
}
